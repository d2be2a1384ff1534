# Verified model of the agent's interception and direct-path engine

This Dafny project models the parts of the agent that combine bit-level work,
loops over wire data and state machines over several maps, and proves what they
are for. `dafny verify dfyconfig.toml` checks all of it. One module per component:

- `Bytes`, `Addresses`, `Sets`: bytes and fixed-width integers, addresses and flow
  keys, cardinality facts.
- `Checksum`, `Packet`, `Repair`, `Rewrite`, `Synthesize`: IPv4/IPv6 packets with
  TCP or UDP (RFC 791 section 3.1, RFC 8200 sections 4 and 8.1, RFC 9293 section 3.1):
  parsing, checksum repair (RFC 1071), rewriting in place, UDP replies and TCP resets
  (RFC 9293 section 3.5.2). `PacketPrint` writes the accepted packets from the formats' side.
- `Reflection`, `Interceptor`: the two-map TCP reflection table, first as a pure table
  with one step for each locked section, then as an object whose records are shared by
  both maps and which works on the packets' bytes. `Rulings`: what the decision on a SYN
  means for the packets of its flow over whole runs.
- `DnsStream`, `DnsNames`, `FakeIp`: passive reassembly of DNS over TCP, the index of
  looked-up names, the allocator of synthetic addresses. `DnsExchange`: what an observed
  exchange is sure to leave in the index.
- `Tickets`, `Admission`, `RateLimit`, `ClientManager`, `ClientAttempts`: Public Direct
  tickets, what lets them in and their replay table, the handshake limiter, session
  ownership, backoff and overlapping attempts over all interleavings.
- `Hostname`: the hostname probe over chunks of a stream. `HelloPrint`, `HttpPrint`: the
  byte strings that show a name, from the formats' side.
- `NetworkFrames`, `Broker`: the Network Service frame codec and its protocol with one
  outstanding packet.
- `DnsGuard`: the Linux output chain and retryable guard updates.
- `Upnp`: the on/off/restart lifecycle of the router mappings.
- `Download`: resumable downloads with their retry loop.
- `Overlap`: the two-pointer overlap computation of the benchmark analysis.

Code that changes state is a class or an array method whose `ensures` equates the new
state with a specification function of the old one; what the code promises is then
proved about that function, for every input and every run. So that the
specification is not its own only witness, the main operations have a second statement,
spelled out on fields, bytes and history without it. Each locked section is one
atomic step; other threads come in between. Clocks, random order of Go maps, network and
disk behaviour, libraries and cryptography are parameters or nondeterministic choices.
Times are nanoseconds.

## Where code and documentation, or code and intent, differ

The model follows the code; each point has a lemma.

- Checksums: below 8 GiB the 32-bit accumulator is right if and only if the word sum does
  not wrap; no parsable packet makes it wrap (`Checksum.CorrectIffHarmless`,
  `Checksum.CorrectIffNoWrap`, `Checksum.AccumulatorFits`).
- Port reuse: the comment at agent/divert/interceptor.go:628-632 promises a quarantine and
  a fresh port; delayed packets of the old connection do reach the new one, exactly when the
  new SYN is reflected, too (`Reflection.DelayedPacketReaches`,
  `Reflection.ResetReachesNewConnection`).
- Stale FakeIP addresses: once the address of a live flow can no longer be looked up, the
  stale-address guard claims the packets of both directions, the client's own ones and the
  listener's answers (`Interceptor.ClientDispatched`, `Interceptor.ReplyDispatched`,
  `Interceptor.ReplyLostAfterLease`).
- FakeIP keys: they are joined with slashes, which hosts may hold; addresses are never
  reassigned if and only if the requested names have keys of their own
  (`FakeIp.NeverReassignedIff`, `FakeIp.ScopedCollideIff`, `FakeIp.SlashesCollide`,
  `FakeIp.CollisionReassigns`). Names that reach the allocator have a scope
  (agent/divert/fakeip_upstream_dns.go:47), and pinned exits are validated to be free of
  slashes (agent/routing/validate.go:50, 74): only a default exit id with a slash makes a
  collision possible.
- FakeIP: `wasIssued` does not unmap its argument, `isFakeIP` does, a trap without a caller
  today (`FakeIp.MappedIssued`, `FakeIp.MappedNotIssued`, `Interceptor.ParsedNotMapped`);
  and after exhaustion of the IPv4 range one address counts as issued that never was
  (`FakeIp.IssuedIffMinted`).
- DNS index: the empty string is both the root's name and "none found yet", so the answer
  depends on map order if and only if the root and one other name are live
  (`DnsNames.OrderShowsOnlyWithRoot`, `DnsNames.RootMakesOrderShow`).
- Tickets: a lifetime that overflows int64 nanoseconds passes the five-minute check
  (`Tickets.ExpiryBoundedIffFits`, `Tickets.OverlongAccepted`). And a call reads its clock
  before it waits for the lock: one with a later clock that gets the lock first can prune
  the entry the earlier one should have met, and only then a ticket is accepted twice
  (`Tickets.ReplayRefusedIff`, `Tickets.AcceptedTwiceIsOvertaken`, `Tickets.ReplayedTicket`).
- One attempt per exit (agent/direct/client_manager.go:287-289): an attempt can be forgotten
  while it is dialling, by removal of the exit or a forced failure, and the end of a
  forgotten one clears the flag of a later one; two attempts of an exit can overlap exactly
  after that (`ClientAttempts.StartingIsBegun`, `ClientAttempts.OneAtATime`,
  `ClientAttempts.SecondAttemptIff`).
- Direct sessions: a ticket marked as consumed is sent again exactly when the inventory
  assigns it anew, by bringing it back (`ClientManager.SentIffUntried`,
  `ClientManager.ReturnSendsAgain`, `ClientManager.TicketSentTwice`); the backoff overflows
  if and only if a doubled value of 2^62 ns or more is below the maximum
  (`ClientManager.DelayIsBackoffIff`, `ClientManager.OverflowNegative`).
- Rate limiter: the second window test at agent/direct/rate_limit.go:63-66 never succeeds,
  because pruning has just removed such windows (`RateLimit.SecondTestIsDead`). Its callers
  are concurrent and read the clock before the lock (agent/direct/public_listener.go:144-160,
  210). Without overtaking a minute holds at most 2*limit - 1 handshakes of a key
  (`RateLimit.RunBounded`). One nanosecond of overtaking is enough for 3*limit - 1, so that
  for limits of two or more twice the limit is a bound if and only if no clock is late
  (`RateLimit.TwiceLimitIff`); the greatest number is known exactly for every lateness below
  a minute, and there is none from a minute on (`RateLimit.BoundHoldsIff`).
- Network Service: a completion that nobody asked for is accepted if and only if the capture
  loop has taken one for every packet (`Broker.AcceptedIff`, `Broker.UnsolicitedCompletion`).
- Hostname probe: the report depends on how the stream is cut if and only if some prefix
  within 8192 bytes shows a name and the stream in one read does not
  (`Hostname.ChunkingShowsIff`, `Hostname.ChunkingMattersAtLimit`).
- Router mappings: a late update overwrites the TCP status "disabled", never the UDP one
  (`Upnp.TcpSaysDisabledIffNoUpdate`, `Upnp.TcpOverwritesDisabled`).

## Model

| member | source | states |
|---|---|---|
| Checksum.FoldOfWordSum | agent/divert/packet.go:398-419 | adding all 16-bit words first and folding the carries at the end gives the one's complement (end-around carry) sum of RFC 1071, for every byte string, odd lengths padded with zero |
| Checksum.FoldOf | agent/divert/packet.go:417-419 | the folding loop ends at the residue of the sum modulo 65535, taken in 1 to 65535 |
| Checksum.AddWords | agent/divert/packet.go:406-409 | the word loop of one part leaves the part's last odd byte and a uint32 sum that is the word sum of everything before it modulo 2^32 |
| Checksum.AddPart | agent/divert/packet.go:396-413 | after any part, empty and odd ones included, `sum`, `high` and `odd` describe exactly the concatenation of all parts so far |
| Checksum.FoldCarries | agent/divert/packet.go:417-419 | the carry loop terminates and returns the folded sum |
| Checksum.PacketChecksum | agent/divert/packet.go:394-421 | the result depends on the parts only through their concatenation, and is its RFC 1071 checksum whenever the 32-bit word sum does not wrap |
| Checksum.CorrectIffHarmless | agent/divert/packet.go:394-421 | for every input the code's checksum equals RFC 1071's if and only if the 32-bit word sum did not wrap, or wrapped a multiple of 65535 times and left low bits that are not all zero |
| Checksum.CorrectIffNoWrap | agent/divert/packet.go:394-421 | so for inputs below 8 GiB the code's checksum equals RFC 1071's if and only if the word sum is below 2^32 |
| Checksum.AccumulatorFits | agent/divert/packet.go:363-392 | no string of up to 131074 bytes, which covers every parsable packet with its pseudo-header, reaches 2^32 |
| Checksum.ComplementFolds | agent/divert/packet.go:363-392 | inserting the complement of a sum makes the whole fold to 0xffff |
| Packet.ValidatePacketOptions | agent/divert/packet.go:125-148 | the loop over IPv4 or TCP options returns exactly the error, or acceptance, of the recursive option rules |
| Packet.OptionsGrammar | agent/divert/packet.go:125-148 | an options field is accepted if and only if it is a list of legal options followed by nothing or by End-of-options and padding (RFC 791 section 3.1, RFC 9293 section 3.1) |
| Packet.ValidateIPv6PacketOptions | agent/divert/packet.go:202-222 | the loop over Hop-by-Hop and Destination options meets its recursive specification, error by error |
| Packet.CheckExtension | agent/divert/packet.go:155-196 | one extension header is measured or refused as specified; an accepted one lies inside the packet |
| Packet.Transport6 | agent/divert/packet.go:150-200 | an accepted extension walk ends inside the packet, at or behind where it started, on TCP or UDP |
| Packet.Ipv6PacketTransport | agent/divert/packet.go:150-200 | the loop over extension headers (RFC 8200 section 4), one atomic Fragment header at most, finds the offset and protocol of the recursive walk or its error |
| Packet.ParseIPPacket | agent/divert/packet.go:27-123 | parsing any byte string gives the specified packet value or the specified error |
| PacketPrint.ParseOfPrint | agent/divert/packet.go:27-123 | for a packet given by its fields (IPv4 with any legal options or IPv6 with any legal extension headers, TCP with any legal options or UDP, any payload) and printed as the RFCs lay it out, parsing gives back exactly the endpoints, flags, sequence, ack, transport offset and the payload behind the options |
| PacketPrint.AcceptedIsPrint | agent/divert/packet.go:27-123 | conversely every accepted byte string is the print of such a packet |
| PacketPrint.AcceptedIffPrint | agent/divert/packet.go:27-123 | so a byte string is accepted if and only if it is the print of a legal packet |
| Repair.RepairedFrame | agent/divert/packet.go:363-392 | a repair changes no byte outside the checksum fields |
| Repair.RepairForgetsChecksums | agent/divert/packet.go:363-392 | two packets that differ in checksum bytes only are repaired to the same bytes |
| Repair.RepairedVerifies | agent/divert/packet.go:363-392 | after a repair the IPv4 header and the pseudo-header with the transport part both add up to 0xffff (RFC 1071), and a UDP checksum is never written as zero |
| Repair.ChecksummedVerifies | agent/divert/packet.go:374-391 | a string with its own complemented checksum in place verifies, also when zero is written as 0xffff |
| Repair.PseudoFields | agent/divert/packet.go:375-386 | the pseudo-header covers both addresses as they stand on the wire, the protocol and the transport length, in the layouts of RFC 9293 section 3.1 and RFC 8200 section 8.1, and nothing else of the packet |
| Repair.PseudoSum | agent/divert/packet.go:375-386 | its word sum is that of both addresses plus length plus protocol, for either IP version |
| Repair.RepairPacketChecksums | agent/divert/packet.go:363-392 | in place on the packet's bytes: exactly the repaired bytes, all checksums valid |
| Rewrite.ParseFrame | agent/divert/packet.go:27-123 | changing only addresses, ports and checksums of an accepted packet keeps it accepted, with the same protocol, flags, sequence, ack, offset and payload and the endpoints then written in it |
| Rewrite.EndpointPair | agent/divert/packet.go:254-267 | an accepted endpoint pair is unmapped, without zones and of one family |
| Rewrite.ParsedIsRepairable | agent/divert/packet.go:227-252 | every accepted packet meets what checksum repair needs |
| Rewrite.RewriteParses | agent/divert/packet.go:227-252 | a successful rewrite parses as the same packet with the new unmapped endpoints, verifies, and differs from the original in addresses, ports and checksums only |
| Rewrite.RewriteBack | agent/divert/packet.go:227-252 | rewriting back to the old endpoints always succeeds and gives the original with its checksums repaired |
| Rewrite.RewriteIPPacket | agent/divert/packet.go:227-252 | in place: success writes exactly the specified bytes, failure reports the specified error and changes no byte |
| Synthesize.NewTransportPacket | agent/divert/packet.go:271-307 | succeeds exactly for usable endpoints and fitting lengths, with a fresh buffer holding a header and a zeroed transport part |
| Synthesize.MakeUDPReply | agent/divert/packet.go:310-326 | the reply's bytes, or the error, are the specified ones |
| Synthesize.UdpReplyParses | agent/divert/packet.go:310-326 | parsing the reply gives back exactly the swapped, unmapped endpoints and the payload, with valid checksums; it is refused if and only if the flow is not UDP, the payload too long or the endpoints unusable |
| Synthesize.ResetFor | agent/divert/packet.go:345-358 | sequence and acknowledgement of a reset are those of RFC 9293 section 3.5.2, modulo 2^32, SYN and FIN counted |
| Synthesize.TcpResetParses | agent/divert/packet.go:330-361 | a reset parses as that segment from the old destination to the old source, verifies, and answering the reset yields nothing |
| Synthesize.ResetOfParsed | agent/divert/packet.go:330-361 | for a parsed TCP packet a reset is always made, except for a packet with RST set |
| Synthesize.MakeTCPReset | agent/divert/packet.go:330-361 | the bytes written into the new packet are the specified reset |
| Synthesize.OwnHeaders | agent/divert/packet.go:271-361 | replies and resets have a plain network header: no options, no fragmentation, identification zero, 64 hops |
| Reflection.InvRun | agent/divert/interceptor.go:622-834 | at every moment of every run, with accepts, ends of forwarding and both sweeps between any two locked sections of the packet thread: `reverse` is exactly the map from translated key to flow over the reflected flows of `tcp`, the two maps together hold at most 4*MaxTCPFlows+1 entries, and a packet without a flow is still without one when its flow is registered |
| Reflection.InvStep | agent/divert/interceptor.go:1004-1035 | every single locked section keeps that, sweeps of a record the packet thread still holds included |
| Reflection.SectionsAreOutbound | agent/divert/interceptor.go:622-747 | undisturbed, the locked sections of outboundTCP are the whole step that the object is proved to take |
| Reflection.InvIsExact | agent/divert/interceptor.go:781-817 | the invariant means that no reverse entry is overwritten and none dangles |
| Reflection.AcceptedOnce | agent/divert/interceptor.go:945-993 | in no run is a flow bound to a listener connection twice |
| Reflection.TranslationForgetsPort | agent/divert/interceptor.go:798-808 | two flows that differ in the destination port only translate to the same key, so the translation alone cannot tell them apart |
| Reflection.SecondOwnerRefused | agent/divert/interceptor.go:781-817 | while a reflected flow is in the table a second flow with the same translation is refused and the table unchanged |
| Reflection.ReplyRestoresFlow | agent/divert/interceptor.go:819-834 | a listener packet is answered if and only if it belongs to a live reflected flow, and then with that flow's original endpoints reversed, the dropped destination port included |
| Reflection.ReplyBytes | agent/divert/interceptor.go:819-834 | the rewritten reply always succeeds and parses with those endpoints and otherwise as the packet it was |
| Reflection.DelayedPacketReaches | agent/divert/interceptor.go:626-640 | after the reuse of a reflected flow's port, any listener packet of the old connection is answered to the new one, with the same endpoints, if and only if the new SYN is reflected, too; otherwise it is dropped |
| Reflection.ResetReachesNewConnection | agent/divert/interceptor.go:626-640 | a run in which the RST of the first connection's listener socket reaches the client of the second |
| Interceptor.PacketInterceptor.Release | agent/divert/interceptor.go:626-640 | port reuse removes the old record from both maps and marks it finished (what delayed packets then meet is Reflection.DelayedPacketReaches) |
| Interceptor.PacketInterceptor.RegisterTCP | agent/divert/interceptor.go:781-817 | registration stores one fresh record under both keys, or refuses and changes nothing |
| Interceptor.PacketInterceptor.TouchTCP | agent/divert/interceptor.go:715-721 | the record is touched, and finished by a RST, in every map that holds it, also when the sweeper has taken it away |
| Interceptor.PacketInterceptor.ForwardTCP | agent/divert/interceptor.go:715-746 | the shared record after a forwarded packet, the verdict, and the bytes: rewritten in place to the translated endpoints, which never fails, repaired and sent, left to the device, or answered by the RFC 9293 reset; what that means for each action is stated on the delivered bytes, field by field (`Follows`): a rejected segment is never let through |
| Interceptor.ReflectedBytes | agent/divert/interceptor.go:738-743 | the packet of a reflected flow is always rewritten and parses as the same segment with the translated endpoints |
| Interceptor.PacketInterceptor.SendPacket | agent/divert/interceptor.go:875-893 | the captured packet is let go, or injected with its checksums repaired |
| Interceptor.PacketInterceptor.RejectTCP | agent/divert/interceptor.go:836-843 | exactly the specified reset is injected, nothing for a RST |
| Interceptor.PacketInterceptor.DecideTCP | agent/divert/interceptor.go:652-714 | what becomes of a SYN without a flow for every decision of the policy, table and bytes |
| Interceptor.PacketInterceptor.OutboundTCP | agent/divert/interceptor.go:622-747 | undisturbed, the whole outbound step on the two maps of shared records, its verdict, what the device gets and the packet's bytes in place; the delivery is also stated field by field (`SentAs`) for known flows, plain segments, bypasses, classification errors, DNS passthrough, decisions and failed registrations |
| Rulings.SentIsRuled | agent/divert/interceptor.go:622-747 | after any run with all its interleavings: a segment of a flow gets what was decided on the flow's SYN, as long as the flow is neither replaced nor swept: Reject the RFC 9293 reset, or nothing for a RST, and never the segment itself, Direct(false) the segment with valid checksums or let go, Proxy and Direct(true) the rewrite to the listener; without a flow, what its own SYN's decision says, if there is room |
| Rulings.HeldIsRuled | agent/divert/interceptor.go:622-747 | a flow that the packet thread holds while others run keeps that decision, also when it is swept meanwhile |
| Rulings.StoredIsRuled | agent/divert/interceptor.go:622-834 | in every run a stored flow has the action and sequence number of the SYN that registered it |
| Rulings.BoundIff | agent/divert/interceptor.go:958-968 | in every run a listener connection is bound to a flow if and only if it has the translation of that live flow, which is neither accepted nor finished |
| Rulings.ConnectionStays | agent/divert/interceptor.go:945-1035 | an accepted connection stays in the table, however long it is idle and however often the table is swept, until its forwarding ends, a RST is forwarded or its port is used again |
| Rulings.SweptIff | agent/divert/interceptor.go:1004-1035 | a sweep removes a flow if and only if it ended more than two minutes ago or, not accepted and not an open direct flow, was idle for so long |
| Interceptor.PacketInterceptor.ReturnTCP | agent/divert/interceptor.go:819-834 | the listener packet is rewritten in place to the flow's endpoints, or left untouched when no flow owns it |
| Interceptor.PacketInterceptor.AcceptTCP | agent/divert/interceptor.go:956-969 | the connection is bound to the one flow the specification names, or to none, and the flow is then marked accepted in both maps |
| Interceptor.PacketInterceptor.FinishTCP | agent/divert/interceptor.go:987-990 | the end of forwarding marks the record even when it has already left the maps |
| Interceptor.PacketInterceptor.InboundTCP | agent/divert/interceptor_telemetry.go:20-76 | an inbound packet of an untouched direct flow updates that flow only |
| Interceptor.PacketInterceptor.TrackDirectTCP | agent/divert/interceptor_telemetry.go:78-104 | FIN in both directions or RST finishes a direct flow; nothing else changes |
| Interceptor.PacketInterceptor.SweepTCP | agent/divert/interceptor.go:1004-1035 | both sweep loops, in any map order, remove exactly the expired records and keep the maps consistent |
| Interceptor.PacketInterceptor.SweepDirectTCP | agent/divert/interceptor_telemetry.go:126-138 | a candidate is removed only if it is still the same untouched record |
| Interceptor.ReplyDispatched | agent/divert/interceptor.go:358-451 | a listener's answer to a live flow reaches the reply path if and only if no earlier guard claims it; for a flow to a synthetic address: the FakeIP mode is on and the allocator can still look the address up |
| Interceptor.ClientDispatched | agent/divert/interceptor.go:358-451 | the client's own packet on a live flow is forwarded to the listener if and only if no earlier guard claims it, and is rejected as stale if and only if the address is synthetic and cannot be looked up, outside captured DNS and encrypted DNS ports |
| Interceptor.ReplyLostAfterLease | agent/divert/interceptor.go:407-427 | a run of allocator and table: before the lease ends both the client's and the listener's packets of a live, accepted flow to that address are forwarded, from then on both are rejected as stale, although the table knows where both go |
| Interceptor.ParsedNotMapped | agent/divert/packet.go:27-123 | addresses of parsed packets are never IPv4-mapped |
| DnsStream.FramesPrint | agent/divert/dns.go:147-156 | framing loses and invents nothing: the messages prefixed again and the rest are the original bytes (RFC 1035 section 4.2.2) |
| DnsStream.FramesOfPrefixed | agent/divert/dns.go:147-156 | round trip: length-prefixed messages frame to themselves (RFC 7766 section 8) |
| DnsStream.FramesContinue | agent/divert/dns_tcp_stream.go:98-120 | framing may stop after any prefix and go on with what was left; a bad length stays bad |
| DnsStream.CompleteFrames | agent/divert/dns.go:147-156 | the one-segment loop observes exactly the messages of the framing |
| DnsStream.DnsTcpObserver.Observe | agent/divert/dns_tcp_stream.go:46-125 | the observer's map and messages after any packet are the specified ones |
| DnsStream.DnsTcpObserver.PruneExpired | agent/divert/dns_tcp_stream.go:73-78 | in any map order exactly the expired streams are dropped |
| DnsStream.DnsTcpObserver.Segment | agent/divert/dns_tcp_stream.go:86-124 | one segment on a stored stream: accepted bytes, emitted messages and whether the stream is kept |
| DnsStream.RunReassembles | agent/divert/dns_tcp_stream.go:46-125 | after any packets: at most 512 streams, buffers of at most 8193 bytes, and for every stream that is not invalid the emitted messages prefixed again followed by the buffer are exactly the accepted payloads, one contiguous run of sequence space modulo 2^32 |
| DnsStream.OutputReassembles | agent/divert/dns_tcp_stream.go:46-125 | every message ever returned, also by the segment whose FIN removes the stream or whose bad length ends it: with the stream's earlier messages, prefixed again, and some rest it is exactly the contiguous payloads accepted up to that segment |
| DnsStream.TakeFrames | agent/divert/dns_tcp_stream.go:108-120 | the framing loop computes the framing, bad lengths included |
| DnsStream.SegmentationIrrelevant | agent/divert/dns_tcp_stream.go:86-120 | one stream on its own: every segmentation within the buffer bound emits exactly the messages of framing the whole byte string, and is invalid exactly when that has a bad length |
| DnsStream.FollowedReassembles | agent/divert/dns_tcp_stream.go:46-124 | in the observer, after any run and with packets of other streams anywhere in between: as long as a stream's packets come in order, fit, and find it neither expired nor evicted, the messages returned for it are those of framing all its bytes as one string, and its stored state is where that framing stops |
| DnsStream.EmitsOnlyPrefix | agent/divert/dns_tcp_stream.go:86-120 | whatever the buffer bound drops, the messages emitted are the first messages of the whole stream's framing |
| DnsStream.GivenUpIff | agent/divert/dns_tcp_stream.go:86-120 | a stored stream is given up with a segment if and only if that leaves a gap, goes back over taken bytes and beyond, overfills the buffer or completes an impossible length |
| DnsStream.GivenUpIsSilent | agent/divert/dns_tcp_stream.go:44-124 | in the observer a stream that was given up returns nothing until a new connection begins or it expires, whatever comes in between |
| DnsStream.Forgotten | agent/divert/dns_tcp_stream.go:50-66 | a RST, an empty SYN and an empty FIN forget the stream |
| DnsNames.FollowCnames | agent/divert/dns.go:99-141 | the bounded loop over CNAMEs finds the owner and TTL of the recursive specification |
| DnsNames.ResolvedByChain | agent/divert/dns.go:99-125 | a resolved owner was reached from the queried name over a chain of at most 16 distinct names, each linked by a CNAME answer, and the TTL is the least of 300 and of every CNAME answer on the chain |
| DnsNames.ChainIsFollowed | agent/divert/dns.go:99-125 | conversely every unambiguous chain of at most 16 names is followed to its end |
| DnsNames.BoundedRun | agent/divert/dns.go:53-96 | in every run at most 4096 pending questions, 4096 addresses and eight names per address |
| DnsNames.InvRun | agent/divert/dns.go:176-192 | with a non-decreasing clock the index agrees with the history of all records: stored names with their latest record, the ambiguity with the latest expiry of a refused one |
| DnsNames.RecordsAreSourced | agent/divert/dns.go:80-141 | every record of every run comes from a query and a matching response within ten seconds over the same endpoints, protocol and id, and from an answer at the end of a CNAME chain |
| DnsNames.LookupJustified | agent/divert/dns.go:194-217 | a returned name has a live latest record for the address, and no other name but the root has one, stored or refused by the 8-name limit |
| DnsNames.OnlyNameIsFound | agent/divert/dns.go:194-217 | the only name with a live record is returned in every iteration order when no refused record is live |
| DnsNames.LookupHasSource | agent/divert/dns.go:194-217 | a returned name was asked for and answered with this address; its expiry is live and at most 300 s after that response |
| DnsExchange.ExchangeRecorded | agent/divert/dns.go:55-171 | in every run: a query for an A or AAAA record to port 53 and, within ten seconds and with no other message for its endpoints, protocol and id in between, a successful untruncated response to the same question leave a record for every address of that kind at the end of a plain CNAME chain, for the least of the TTLs and 300 s, if the limits of 4096 leave room |
| DnsExchange.ExchangeFound | agent/divert/dns.go:55-217 | and until it expires a lookup of that address gives the name asked for, when no other name is live and no refusal is |
| DnsExchange.RefusedBehindEight | agent/divert/dns.go:173-192 | a name is refused for an address only while eight other names of it are live |
| DnsNames.OrderShowsOnlyWithRoot | agent/divert/dns.go:206-216 | the answer depends on the map's iteration order if and only if the root name and exactly one other name are live for the address |
| DnsNames.RootMakesOrderShow | agent/divert/dns.go:194-217 | a run of two exchanges, for the root and for a host, after which both answers are possible |
| DnsNames.DnsAssociations.Prune | agent/divert/dns.go:219-235 | in any order of the two maps exactly the expired questions, names and addresses go |
| DnsNames.DnsAssociations.QueryProtocol | agent/divert/dns.go:53-74 | observing any query is the specified step |
| DnsNames.DnsAssociations.ResponseProtocol | agent/divert/dns.go:80-141 | observing any response is the specified step: it consumes its question and records the answers of the resolved owner |
| DnsNames.DnsAssociations.RememberName | agent/divert/dns.go:176-192 | a ninth name is refused and extends the ambiguity instead; a full table drops new addresses |
| DnsNames.DnsAssociations.LookupName | agent/divert/dns.go:194-217 | for every iteration order the answer is one the specification allows, and only expired names are deleted |
| FakeIp.ApartUnlessSlashes | agent/divert/fakeip.go:117-123 | names have keys of their own when no host, or no scope, among them has a slash |
| FakeIp.ScopedCollideIff | agent/divert/fakeip.go:117-123 | two different scoped names have the same key if and only if the host of one continues the other's key into its scope, which needs a slash in that host and one in the other's scope |
| FakeIp.SlashesCollide | agent/divert/fakeip.go:117-123 | two such names |
| FakeIp.NeverReassignedIff | agent/divert/fakeip.go:93-96 | runs over a set of names never grant one address for two names if and only if the names have keys of their own |
| FakeIp.CollisionReassigns | agent/divert/fakeip.go:117-132 | of two names with one key the second is granted the first one's address |
| FakeIp.SameAddressSameKey | agent/divert/fakeip.go:117-163 | in every run, whatever the names, the names that got one address have one key |
| FakeIp.FakeIpDns.AllocateScoped | agent/divert/fakeip.go:117-163 | allocation on the two maps and counters is the specified step, renewals and refusals included |
| FakeIp.FakeIpDns.MintAddress | agent/divert/fakeip.go:144-159 | the next number of the family, or none once the range is exhausted |
| FakeIp.FakeIpDns.PruneExpiredLocked | agent/divert/fakeip.go:97-108 | in any map order exactly the expired addresses go, and with them exactly their names |
| FakeIp.FakeIpDns.LookupWithScope | agent/divert/fakeip.go:80-91 | a lookup answers live addresses of the ranges only |
| FakeIp.InvRun | agent/divert/fakeip.go:117-163 | every run with fewer than 2^32 attempts a family keeps: minted addresses are exactly those below the counters, entries describe the name they were minted for, at most 32768 of them |
| FakeIp.NeverReassigned | agent/divert/fakeip.go:93-96 | no address is ever granted for two names, across expiry and pruning, over any names with keys of their own |
| FakeIp.TableIsBijection | agent/divert/fakeip.go:97-163 | `byName` is a bijection onto the keys of `byIP` |
| FakeIp.LiveKeepsAddress | agent/divert/fakeip.go:125-132 | a live name keeps its address and its lease, whatever else is requested; a request with its key renews the lease |
| FakeIp.IssuedIffMinted | agent/divert/fakeip.go:59-73 | an address that is not IPv4-mapped counts as issued if and only if it was minted, one address excepted once the IPv4 range is exhausted |
| FakeIp.MintedStaysIssued | agent/divert/fakeip.go:59-73 | a minted address stays issued, and its name's, in every longer run |
| FakeIp.MappedIssued | agent/divert/fakeip.go:59-73 | the IPv4-mapped form of an address would be tested against the IPv6 counter; no caller passes one |
| FakeIp.MappedNotIssued | agent/divert/fakeip.go:59-73 | a run in which a minted address would not be recognised in its mapped form |
| FakeIp.LookupIsMinted | agent/divert/fakeip.go:80-91 | in every run a lookup answers only with the name the address was minted for |
| FakeIp.AllocatedIsFound | agent/divert/fakeip.go:80-163 | until its lease ends an allocated address is looked up as a name with the requested key, and as the requested name and scope unless slashes make two names share it |
| FakeIp.GrantedIff | agent/divert/fakeip.go:117-163 | in every run a request is granted an address if and only if its name is live, or fewer than 32768 other addresses are unexpired and its family has a number left |
| FakeIp.GrantedFamily | agent/divert/fakeip.go:145-163 | an A request is granted an IPv4 address of 198.18.0.0/15, an AAAA request an IPv6 address of 2001:db8:198:18::/96 |
| Tickets.TicketAuthenticator.Authenticate | agent/direct/ticket_auth.go:84-168 | the answer and the replay table after any call are the specified ones (what the specification lets in is Admission.AnswerIff) |
| Admission.AnswerIff | agent/direct/ticket_auth.go:84-168 | with a non-decreasing clock a call is answered with claims if and only if its ticket decodes to them under a 64-byte signature that verifies, names this issuer, client and exit, has the right versions, positive revisions, a nonce of 16 to 64 bytes and the proxy capability, is permitted by the validator and inside its time window, is none of the accepted ones in use, and fewer than 8192 are in use; it is a replay, or expired, exactly when all but that holds |
| Admission.AcceptedPassed | agent/direct/ticket_auth.go:84-168 | in every run, whatever the clock does, each accepted ticket comes from a call at that time in which it passed every one of these checks |
| Admission.SectionsPassed | agent/direct/ticket_auth.go:84-168 | the same for calls that overlap, in every interleaving |
| Admission.WaitsIff | agent/direct/ticket_auth.go:84-149 | a call gets as far as the lock if and only if its ticket passes the checks |
| Tickets.TicketAuthenticator.Remember | agent/direct/ticket_auth.go:151-168 | under the lock: expired entries pruned in any order, then replay, capacity or admission |
| Tickets.AcceptedOnce | agent/direct/ticket_auth.go:84-168 | for calls one after the other with a non-decreasing clock: no ticket is accepted twice, every accepted unexpired ticket is in the replay table with its expiry, and the table holds at most 8192 |
| Tickets.TableIsHistory | agent/direct/ticket_auth.go:151-168 | for calls that overlap between reading the clock and getting the lock, in any order: the table holds exactly the accepted tickets that no later section, by its own clock, took for expired |
| Tickets.ReplayRefusedIff | agent/direct/ticket_auth.go:116-168 | in every such interleaving a ticket is refused as a replay if and only if it was accepted before and no section since, its own included, had a clock at or past the expiry |
| Tickets.AcceptedTwiceIsOvertaken | agent/direct/ticket_auth.go:116-168 | a ticket is accepted twice only if a call with a clock at or past its expiry got the lock before one that had read its clock before the expiry |
| Tickets.OncePerClockOrder | agent/direct/ticket_auth.go:116-168 | when no such overtaking happens a ticket is accepted once |
| Tickets.OvertakenIsReplayed | agent/direct/ticket_auth.go:116-168 | for any two tickets and checks that overtaking does accept the first ticket twice |
| Tickets.ReplayedTicket | agent/direct/ticket_auth.go:116-168 | a concrete run: a ticket for the seconds 100 to 160 accepted at 100 and again by a call with the clock 159 |
| Tickets.ExpiryBoundedIffFits | agent/direct/ticket_auth.go:116-127 | an accepted ticket expires at most 330 s after its acceptance if and only if its lifetime in nanoseconds fits an int64 |
| Tickets.OverlongAccepted | agent/direct/ticket_auth.go:116-127 | a lifetime of 18446744074 s passes the time checks because it wraps round |
| Tickets.StoredExpiryBounded | agent/direct/ticket_auth.go:116-168 | the bound for every accepted ticket of every run whose lifetime fits |
| RateLimit.HandshakeLimiter.Allow | agent/direct/rate_limit.go:38-73 | the decision and the table of windows are the specified ones, in any map order |
| RateLimit.SecondTestIsDead | agent/direct/rate_limit.go:50-66 | behind the pruning the second window test never succeeds, for any table, key and clock |
| RateLimit.DecidesLikeSimple | agent/direct/rate_limit.go:38-73 | the pruned, bounded limiter decides like one unpruned window per key, except that a full table refuses a key without an open window |
| RateLimit.RefinesStep | agent/direct/rate_limit.go:38-73 | that correspondence survives every call |
| RateLimit.RunBounded | agent/direct/rate_limit.go:38-73 | in every run whose calls get the lock in the order of their clocks: at most 4096 windows, each at most the limit, the table is what pruning leaves of the simple form, and at most 2*limit - 1 accepted per key in any half-open minute, wherever it starts |
| RateLimit.LateRunBounded | agent/direct/rate_limit.go:38-73 | calls are concurrent and read the clock before the lock: in every run whose clocks are at most d < one minute (W) behind an earlier one, any half-open minute holds at most 1 + (W-1)/(W-d) + (limit-1)*(2 + (W-2+d)/(W-d)) accepted handshakes of a key |
| RateLimit.GreatestReached | agent/direct/rate_limit.go:38-73 | for every limit and every such d there is a run that reaches exactly that number |
| RateLimit.NoneReached | agent/direct/rate_limit.go:38-73 | with clocks a minute late or more there are runs with any number of them |
| RateLimit.BoundHoldsIff | agent/direct/rate_limit.go:38-73 | so a bound holds for all runs with clocks up to d late if and only if d is below a minute and the bound at least that number |
| RateLimit.TwiceLimitIff | agent/direct/rate_limit.go:38-73 | twice the limit is such a bound if and only if no clock is late at all (limit of two or more), or none is later than half a minute (limit of one) |
| ClientManager.Delay | agent/direct/client_manager.go:549-561 | the doubling loop in int64 computes the specified delay |
| ClientManager.DelayIsBackoffIff | agent/direct/client_manager.go:549-561 | the loop's n-th delay is min(cooldown*2^(n-1), maxCooldown) for every n if and only if no doubled value of 2^62 ns or more is below the maximum |
| ClientManager.NthFailureSetsDelay | agent/direct/client_manager.go:526-561 | in every run the n-th failing step of an exit since its entry was created or last got a session sets the cooldown to the n-th delay after it |
| ClientManager.StreakIsCounted | agent/direct/client_manager.go:400-561 | in every run failureCount is the number of those failing steps |
| ClientManager.OverflowIsNegative | agent/direct/client_manager.go:549-561 | where a doubled value does overflow, the next delay is negative and the cooldown lies in the past |
| ClientManager.OverflowNegative | agent/direct/client_manager.go:549-561 | a configuration whose second failure does that |
| ClientManager.Manager.UpdateInventory | agent/direct/client_manager.go:180-236 | entries of vanished exits go and their sessions are handed back for closing; a new ticket hash re-arms the entry |
| ClientManager.Manager.EnsureClient | agent/direct/client_manager.go:290-341 | an attempt starts exactly when none is running or spent, the cooldown is over, the path usable, an endpoint reachable and no session open |
| ClientManager.Manager.Connect | agent/direct/client_manager.go:382-413 | a dialled session is installed exactly when the manager is open, the entry has the hash it was dialled with and no open session |
| ClientManager.Manager.FinishFailure | agent/direct/client_manager.go:526-547 | a failed dial counts against the entry only while it has the same ticket hash |
| ClientManager.Manager.WatchSession | agent/direct/client_manager.go:419-447 | an ended session is cleared, and counted as a failure, only if it is still the current one and the manager was not seen closed |
| ClientManager.Manager.FailReadyForExit | agent/direct/client_manager.go:449-475 | a forced failure takes the session out of the entry for closing |
| ClientManager.Manager.Drain | agent/direct/client_manager.go:156-175 | closing empties the table and hands back every session |
| ClientManager.SessionsOwned | agent/direct/client_manager.go:156-475 | over all interleavings a session that was dialled and handed over is closed, about to be closed, or the current session of exactly one entry |
| ClientManager.InstalledForItsTicket | agent/direct/client_manager.go:382-413 | in every run an entry's current session was dialled for this exit with the ticket whose hash the entry had when the session became current |
| ClientManager.OneLaunchPerHash | agent/direct/client_manager.go:290-341 | between two changes of an entry's ticket hash at most one attempt starts |
| ClientManager.SentIffUntried | agent/direct/client_manager.go:211-341 | in every run a ready exit is dialled with its ticket if and only if the ticket was assigned to it after it was last sent there: so it is sent again exactly when the inventory assigns it anew |
| ClientManager.ReturnSendsAgain | agent/direct/client_manager.go:211-341 | from every reachable state, taking an exit out of the inventory and bringing it back with a usable ticket has the ticket sent by the next EnsureClient, while an attempt with the same ticket may still be dialling |
| ClientManager.SentAtMostAssigned | agent/direct/client_manager.go:211-341 | so a ticket is sent at most as often as it was assigned to its exit |
| ClientManager.TicketSentTwice | agent/direct/client_manager.go:211-341 | the run of a ticket that fails, goes and comes back, and is sent twice |
| ClientAttempts.StartingIsBegun | agent/direct/client_manager.go:290-475 | in every run an entry's starting flag is history: an attempt was launched and since then no attempt of the exit ended (older ones included), no forced failure came and the entry was neither removed nor drained |
| ClientAttempts.LaunchIff | agent/direct/client_manager.go:287-341 | in every run EnsureClient dials an exit, given cooldown, path and no open session, if and only if its ticket is untried since its assignment and no attempt has begun in that sense |
| ClientAttempts.OneAtATime | agent/direct/client_manager.go:287-341 | in every run that never removes an exit, forces it down or drains the table while one of its attempts is under way, it has at most one attempt at any time |
| ClientAttempts.SecondAttemptIff | agent/direct/client_manager.go:287-413 | from any reachable state with one attempt of an exit under way, a second one can come to overlap it without such a step if and only if the starting flag is not set, that is, if the attempt was forgotten before |
| ClientAttempts.TableIsInventory | agent/direct/client_manager.go:180-236 | in every run there is an entry for exactly the exits of the last inventory, with the path and ticket hash that it gave, until the table is drained |
| ClientAttempts.HandedOverIff | agent/direct/client_manager.go:382-417 | in every run a dialled session becomes the exit's current one if and only if the manager is open, the exit is offered with the ticket it was dialled with and has no other open session; else it is let go to be closed |
| Hostname.SafeObservedHostname | agent/divert/hostname.go:202-221 | the checks of the loop over labels are the specified name rules |
| Hostname.ParseTLSClientHelloSNI | agent/divert/hostname.go:58-147 | the indexed parser of the TLS ClientHello meets its specification on every byte string, with every index in bounds (RFC 8446 section 4.1.2, RFC 6066 section 3) |
| HelloPrint.SniFoundIff | agent/divert/hostname.go:58-147 | a name is found by TLS if and only if the bytes are a handshake record with a ClientHello, written field by field, whose first server_name extension, behind any others, has it as its first safe host_name, behind any other names |
| HelloPrint.HelloRead | agent/divert/hostname.go:58-147 | every such record shows that name |
| HelloPrint.HelloSpelled | agent/divert/hostname.go:58-147 | every name found by TLS comes from such a record |
| Hostname.ParseHTTPHostname | agent/divert/hostname.go:149-200 | the HTTP parser meets its specification on every byte string |
| HttpPrint.HostFoundIff | agent/divert/hostname.go:149-200 | a name is found by HTTP if and only if the bytes, fewer than 8192, begin with one of nine methods, reach the end of the header, and the first Host line holds it, without its port, as a safe name |
| HttpPrint.SafeIff | agent/divert/hostname.go:202-221 | a safe name is the input trimmed, without one final dot and in lower case, if that is 3 to 253 bytes of two or more labels, each of 1 to 63 letters, digits and inner hyphens, and no IP address |
| Hostname.ObservingConn.Read | agent/divert/hostname.go:23-40 | the probe's state after any delivered chunk is the specified one |
| Hostname.ReportedIsValid | agent/divert/hostname.go:202-221 | whatever the string library does, a reported name has 3 to 253 bytes, a dot, and labels of 1 to 63 lower-case letters, digits and inner hyphens |
| Hostname.DecisionIsStable | agent/divert/hostname.go:48-200 | below 8192 bytes a decision on a prefix is the decision on every extension of it |
| Hostname.ChunkingIrrelevant | agent/divert/hostname.go:23-40 | for a stream under 8192 bytes and any chunks the report is that of parsing the whole stream, and probing ends exactly when the whole stream is decisive |
| Hostname.ChunkingShowsIff | agent/divert/hostname.go:23-40 | for a stream of any length: the report depends on how the stream is cut if and only if some prefix of at most 8192 bytes shows a name and the stream in one read, being longer or undecided, does not; never below 8192 bytes |
| Hostname.WholeIsReported | agent/divert/hostname.go:23-40 | a stream of at most 8192 bytes whose whole shows a name is reported so under every cutting |
| Hostname.OneName | agent/divert/hostname.go:23-40 | two cuttings never lead to reports of different names, nor to two reports |
| Hostname.ChunkingMattersAtLimit | agent/divert/hostname.go:23-40 | at exactly 8192 bytes: a request and its body are reported in two reads and missed in one |
| NetworkFrames.DecodeEncode | agent/divert/network_broker.go:43-107 | a written frame is read back, and nothing behind it is touched |
| NetworkFrames.Layout | agent/divert/network_broker.go:43-77 | the bytes of a frame: RNP1, version 5, kind, flags, both interface numbers and the length in little-endian order, each at its place, then the payload |
| NetworkFrames.EncodeDecode | agent/divert/network_broker.go:79-107 | only written frames are read: each has one spelling |
| NetworkFrames.CutFrameTruncated | agent/divert/network_broker.go:79-107 | a frame cut short is reported as truncated, never taken for another |
| NetworkFrames.DecodeAllEncodeAll | agent/divert/network_broker.go:43-107 | any sequence of frames is read back as the same sequence |
| NetworkFrames.WriteNetworkBytes | agent/divert/network_broker.go:65-77 | over any partial writes: all bytes in order, or a prefix of them and an error |
| NetworkFrames.WriteNetworkFrame | agent/divert/network_broker.go:43-63 | success sends exactly the frame; an oversized payload sends nothing |
| NetworkFrames.WriteFrames | agent/divert/network_broker.go:43-77 | frames written one after another over any partial writes are read back as they were |
| NetworkFrames.ReadNetworkFrame | agent/divert/network_broker.go:79-107 | reading takes exactly the first frame off the stream or gives its error |
| Broker.RunKeepsProtocol | agent/divert/network_broker.go:116-206 | every interleaving of capture, client, reader, watchdog (also between a taken completion and the timer's Stop) and shutdown keeps captures-1 <= consumed <= received <= consumed+1, shuts the device down at most once and before the pipe is closed by anyone, and lets no thread leave before both happened |
| Broker.ShutdownCompletes | agent/divert/network_broker.go:121-138 | from every reachable state with a thread on its way out, in every continuation in which the shutdown's own steps happen in their order, with anything between them, the device and then the pipe are shut |
| Broker.AcceptedIff | agent/divert/network_broker.go:194-199 | a completion for a packet the client has got is always accepted, also before the packet's own write returns; one that nobody asked for is accepted if and only if the capture loop has taken a completion for every packet |
| Broker.SurplusCompletion | agent/divert/network_broker.go:194-199 | there is one completion more than packets if and only if the buffer holds one and no packet is open; never more than one |
| Broker.UnsolicitedCompletion | agent/divert/network_broker.go:194-199 | a run in which a completion nobody asked for is accepted and completes the next packet |
| DnsGuard.BuildCommands | agent/divert/platform_linux.go:488-531 | the three loops over protocols, relays of the family and protocols again, with their other commands, build exactly the layout with the DNS rules second and fourth, and hook in the complete chain only |
| DnsGuard.InstallFamily | agent/divert/platform_linux.go:488-539 | the whole chain is installed and hooked, or after any failing command nothing; no incomplete chain is ever hooked |
| DnsGuard.ChainInClosedForm | agent/divert/platform_linux.go:488-523 | the first rule any packet meets: marked packets return, port 53 meets its own queue before any relay exemption, relays are exempt on other ports only |
| DnsGuard.GuardFailsClosed | agent/divert/platform_linux.go:495-523 | what becomes of every unmarked packet with and without a listening agent: only DNS is ever dropped, and exactly in the protected mode |
| DnsGuard.RecordIsReal | agent/divert/platform_linux.go:545-597 | after any updates with any failing commands the recorded state of every DNS rule is the rule's real one |
| DnsGuard.DoneMeansAll | agent/divert/platform_linux.go:567-596 | an update succeeds if and only if every rule then has the wanted protection, a failed replacement leaves its rule, and a retry without failures succeeds |
| DnsGuard.ModeIsTruth | agent/divert/platform_linux.go:613-635 | the reported mode is no-bypass, bypass or partial exactly when all, none or some of the DNS rules are protected |
| DnsGuard.NoBypassMeansNoEscape | agent/divert/platform_linux.go:613-635 | while no-bypass is reported, after whatever updates and failures, an unmarked DNS packet reaches the agent or is dropped |
| DnsGuard.LinuxFirewall.SetRule | agent/divert/platform_linux.go:567-588 | replacing one rule keeps every chain the layout up to its DNS rules, and records the change exactly when the command succeeds |
| DnsGuard.LinuxFirewall.SetDNSGuardMode | agent/divert/platform_linux.go:545-597 | the update on the real chains is the specified one for the set of rules whose command failed, which is empty when none did |
| Upnp.InvRun | agent/app/file_direct.go:255-393 | every interleaving of syncs, close, router events and runner steps keeps the flags, the context and the live runners in agreement |
| Upnp.AtMostOneRunner | agent/app/file_direct.go:255-393 | at most one runner is live, and an advertised TCP or UDP address implies that it runs and is not stopping |
| Upnp.NoAddressWhileOff | agent/app/file_direct.go:270-285 | after a disabling sync nothing is advertised and no runner starts until an enabling sync, and the UDP status stays disabled |
| Upnp.AdvertisedIsHistory | agent/app/file_direct.go:287-412 | in every run each half advertises exactly the address of its last finding or update that could be published, unless a failed update, its runner's end or a disabling sync came after it |
| Upnp.TcpSaysDisabledIffNoUpdate | agent/app/file_direct.go:374-392 | the TCP status stays disabled after a disabling sync if and only if the stopping runner reads no further router update |
| Upnp.TcpOverwritesDisabled | agent/app/file_direct.go:378-390 | a run in which that status is overwritten while the UDP one is not |
| Upnp.ExactlyOneReplacement | agent/app/file_direct.go:286-325 | off and on again during the cleanup: once the old runner has ended, exactly one replacement is started, by the first sync, however many follow |
| Upnp.ClosedStartsNothing | agent/app/file_direct.go:130-153 | after close no runner is ever started |
| Upnp.FileDirectRuntime.SyncUPnP | agent/app/file_direct.go:255-307 | one sync: the specified step, invariant kept |
| Upnp.FileDirectRuntime.CloseRuntime | agent/app/file_direct.go:130-153 | one close: the specified step, invariant kept |
| Upnp.FileDirectRuntime.FoundTCP | agent/app/file_direct.go:336-373 | the first result of the TCP discovery is published only while the runner may publish |
| Upnp.FileDirectRuntime.UpdatedTCP | agent/app/file_direct.go:374-392 | a TCP mapping update publishes or withdraws |
| Upnp.FileDirectRuntime.FoundUDP | agent/app/file_direct_quic_upnp.go:15-57 | the first result of the UDP discovery is published only while the runner may publish |
| Upnp.FileDirectRuntime.UpdatedUDP | agent/app/file_direct_quic_upnp.go:58-78 | a UDP mapping update publishes or withdraws, and keeps the status of a stopped runtime |
| Upnp.FileDirectRuntime.EndRunner | agent/app/file_direct.go:311-325 | the runner's last critical section withdraws both addresses and says whether to sync again |
| Upnp.FileDirectRuntime.PublicAddresses | agent/app/file_direct.go:169-233 | an address reported as public belongs to a running, uncancelled runner |
| Download.CopyAppends | agent/app/fileshare.go:333-337 | a copy only appends the stream's bytes in order, and is complete if and only if it does not fail |
| Download.AttemptKeepsPrefix | agent/app/fileshare.go:284-359 | no attempt, failing or not, loses a byte of the local file |
| Download.SuccessMeansIntact | agent/bridge/file_transfers.go:182-235 | whatever is dropped, cut short, resumed or discarded, a successful download has the length and hash of the last receipt |
| Download.NeverSplices | agent/app/fileshare.go:312-359 | against a host that checks the prefix the file stays as it was or is a prefix of the version served, and after success that whole version; or else file and content exhibit a collision of the hash |
| Download.Converges | agent/bridge/file_transfers.go:182-232 | whatever the partial file holds, the download completes once two attempts are left and nothing fails any more; or else file and content exhibit a collision |
| Download.ResumesAfterDrops | agent/bridge/file_transfers.go:182-235 | a download of which up to three attempts are dropped resumes from the bytes that it has and completes with the next attempt that is not |
| Download.StopsAtOnce | agent/bridge/file_transfers.go:182-232 | a cancellation, and an error that is neither a drop nor a mismatch, ends the download with the bytes so far |
| Download.FourAttempts | agent/bridge/file_transfers.go:182-232 | the host is asked four times at most |
| Download.HashPrefix | agent/app/fileshare.go:293-304 | the digest covers the whole local file, which is then at its end |
| Download.FileProgressWriter.Write | agent/app/fileshare.go:361-375 | file, digest and counter after any full or short write; the count reported is the file's length |
| Download.CopyN | agent/app/fileshare.go:333-337 | while the copy lasts the digest covers exactly the file's contents |
| Download.DownloadResuming | agent/app/fileshare.go:284-359 | one attempt on the file and its digest is the specified one; progress never exceeds the total and ends at the file's length |
| Download.DownloadToDisk | agent/bridge/file_transfers.go:182-235 | the loop of four attempts is the specified one, and success means size and hash of the receipt |
| Overlap.ExtractIntervals | scripts/analyze_brutal_netem.py:54-62 | a series is accepted if and only if its sorted timestamps increase strictly and its byte counter never falls; the intervals are the consecutive ones |
| Overlap.ExtractLog | scripts/analyze_brutal_netem.py:39-63 | a log is accepted if and only if every line and every series is good, and each series gets exactly its intervals |
| Overlap.ShuffledLog | scripts/analyze_brutal_netem.py:39-63 | a log is accepted with its lines in one order if and only if in any other, with the same intervals for every series |
| Overlap.MergeIntervals | scripts/analyze_brutal_netem.py:78-97 | the two-pointer merge adds up exactly the sums over all pairs of intervals: time, events and the bits of both sides |
| Overlap.DoubleTelescopes | scripts/analyze_brutal_netem.py:83-90 | the sum of all pairwise intersections is the intersection of the two spans |
| Overlap.OverlapOfSamples | scripts/analyze_brutal_netem.py:83-90 | the overlap is max(0, min of the last minus max of the first timestamps) |
| Overlap.RateIsAnAverage | scripts/analyze_brutal_netem.py:101-102 | a reported rate lies between the least and the greatest rate of its series |
| Overlap.JainBounds | scripts/analyze_brutal_netem.py:103-104 | the fairness index is in [1/2, 1], 1 just for equal rates, 1/2 just when one side is starved, and 0 just without traffic |
| Overlap.PercentilesOrdered | scripts/analyze_brutal_netem.py:31-36 | percentiles keep the order of their ratios and lie within the range of the values |
| Overlap.PercentileAt | scripts/analyze_brutal_netem.py:31-36 | a ratio that falls on a rank gives the value of that rank in rising order, one between two ranks divides their distance in proportion |
| Overlap.AnalyzeScenario | scripts/analyze_brutal_netem.py:73-111 | a scenario is summarised if and only if both series exist and overlap enough, with rates that times the duration give the bits |

## Left out

- Operating-system plumbing: WinDivert, NFQUEUE sockets, service installation, named pipes, extension IPC and running firewall commands; only an abstract device, pipe and chain remain.
- QUIC, TLS, HTTP and DoH/DoT clients, UPnP discovery and mapping renewal: networks behind libraries that are not part of this model; a discovery or an update is an arbitrary result.
- Resumable TCP relaying and UDP associations, whose guarantees live in code that is not part of this model.
- DNS packing and unpacking, address text, JSON, Ed25519 and SHA-256: abstract values or function parameters.
- Configuration, status snapshots, logs, telemetry counters, message history and user interface bridges: wide but shallow.
- Domain rules and globs of the policy engine, and process lookup: their decision is a parameter of each packet.
- DNS answers that FakeIP synthesises (`replyScoped`), and query types other than A and AAAA in the allocator: only addresses are modelled.
- The hostname observation of outbound TCP payloads inside the interceptor, and the DNS interception of UDP packets: they do not touch the reflection table.
- The device: whether it takes a packet is a flag; what it is given is proved.
- The chain of inbound packets in the Linux firewall: its queue rule always has bypass. The chains' cleanup is assumed to reach its goal.
- File names, quotas, task lists and publishing of finished downloads: only the partial file, its digest and the retry loop are modelled.
- The host's side of a download is a predicate about its answers, not a program.
- Upload, browsing and mutation of shared files.
- Report formatting and command line of the overlap analysis, and rounding of floats: reals are used.
- DnsNames.LookupJustified: does not speak of the root name, for which the property is false (`DnsNames.OrderShowsOnlyWithRoot`), nor of records dropped because 4096 addresses were in the table.
- DnsExchange.ExchangeRecorded: asks for room as if every answer before the one in question needed a new address; names and their canonical form arrive as in `DnsNames.Canonical`.
- DnsStream.SegmentationIrrelevant: speaks, like `DnsStream.FollowedReassembles`, of in-order segments within the 8194-byte bound; beyond it only `DnsStream.EmitsOnlyPrefix` and `DnsStream.OutputReassembles` hold. The test for retransmissions compares sequence numbers without wrap-around, as the code does, and only drops more.
- FakeIp.InvRun: assumes fewer than 2^32 mint attempts per family; the uint32 counters wrap after that.
- RateLimit.RunBounded: is the case of calls that get the lock in the order of their clocks; `RateLimit.BoundHoldsIff` is the one for calls that overtake each other.
- Interceptor.PacketInterceptor.OutboundTCP: is one undisturbed call; threads between its sections are in `Reflection.InvRun`, on values.
- Upnp.TcpSaysDisabledIffNoUpdate: speaks of the time until the next sync of either kind.
