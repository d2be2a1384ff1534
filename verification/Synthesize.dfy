/** Packets the program makes itself: UDP replies and TCP resets
    (RFC 9293 section 3.5.2). */
module Synthesize {
  import opened Bytes
  import opened Addresses
  import opened Packet
  import opened Repair
  import opened Rewrite

  /** The IP header of newTransportPacket for a transport part of n bytes. */
  function NetworkHeader(s: Addr, t: Addr, next: byte, n: nat): (h: seq<byte>)
    requires Plain(s) && Plain(t) && s.V4? == t.V4?
    requires n <= 0xffff && (s.V4? ==> n <= 0xffff - 20)
    ensures |h| == if s.V4? then 20 else 40
  {
    if s.V4? then [0x45, 0] + U16(20 + n) + [0, 0, 0x40, 0, 64, next, 0, 0] + s.v4 + t.v4
    else [0x60, 0, 0, 0] + U16(n) + [next, 64] + s.v6 + t.v6
  }

  /** A transport part is added behind the header, then everything is repaired. */
  function Assemble(s: AddrPort, t: AddrPort, protocol: Protocol, rest: seq<byte>): (d: seq<byte>)
    requires Plain(s.addr) && Plain(t.addr) && s.addr.V4? == t.addr.V4?
    requires 4 + |rest| <= 0xffff && (s.addr.V4? ==> 4 + |rest| <= 0xffff - 20)
  {
    NetworkHeader(s.addr, t.addr, ProtocolByte(protocol), 4 + |rest|) + (U16(s.port) + U16(t.port) + rest)
  }

  function HeaderLength(a: Addr): nat {
    if a.V4? then 20 else 40
  }

  lemma AssembledHeader(s: AddrPort, t: AddrPort, protocol: Protocol, rest: seq<byte>)
    requires Plain(s.addr) && Plain(t.addr) && s.addr.V4? == t.addr.V4? && |rest| >= 1
    requires 4 + |rest| <= 0xffff && (s.addr.V4? ==> 4 + |rest| <= 0xffff - 20)
    ensures var d := Assemble(s, t, protocol, rest);
            && d != [] && IsIPv4(d) == s.addr.V4? && |d| == HeaderLength(s.addr) + 4 + |rest|
            && Header(d) == Ok((HeaderLength(s.addr), ProtocolByte(protocol)))
            && SourceAddr(d) == s.addr && DestinationAddr(d) == t.addr
            && d[HeaderLength(s.addr)..] == U16(s.port) + U16(t.port) + rest
  {
    var d := Assemble(s, t, protocol, rest);
    if s.addr.V4? {
      assert d[2..4] == U16(20 + 4 + |rest|);
      assert U16At(d, 2) == U16At(d[2..4], 0);
      assert U16At(d, 6) == 0x4000;
      assert d[20..20] == [];
      assert d[12..16] == s.addr.v4 && d[16..20] == t.addr.v4;
    } else {
      assert d[4..6] == U16(4 + |rest|);
      assert U16At(d, 4) == U16At(d[4..6], 0);
      assert d[8..24] == s.addr.v6 && d[24..40] == t.addr.v6;
      assert Transport6(d, d[6], 40, false) == Ok((40, d[6]));
    }
  }

  // ---- UDP ----

  function UdpRest(payload: seq<byte>): (r: seq<byte>)
    requires |payload| <= MAX_UDP_PAYLOAD
    ensures |r| == 4 + |payload|
  {
    U16(8 + |payload|) + [0, 0] + payload
  }

  /** makeUDPReply: the bytes of the reply or the error. */
  function UdpReply(key: FlowKey, payload: seq<byte>): Result<seq<byte>, PacketError> {
    if key.protocol != ProtoUDP then Err(WrongProtocol)
    else if |payload| > MAX_UDP_PAYLOAD then Err(OversizedUDP)
    else match EndpointPair(key.destination, key.source)
      case Err(e) => Err(e)
      case Ok((s, t)) =>
        (AssembledHeader(s, t, ProtoUDP, UdpRest(payload));
         Ok(Repaired(Assemble(s, t, ProtoUDP, UdpRest(payload)), HeaderLength(s.addr), ProtoUDP)))
  }

  lemma UdpUnrepaired(s: AddrPort, t: AddrPort, payload: seq<byte>)
    requires Plain(s.addr) && Plain(t.addr) && s.addr.V4? == t.addr.V4? && |payload| <= MAX_UDP_PAYLOAD
    ensures var d := Assemble(s, t, ProtoUDP, UdpRest(payload));
            && Repairable(d, HeaderLength(s.addr), ProtoUDP) && !MappedOnWire(d)
            && Parse(d) == Ok(IpPacket(d, s, t, ProtoUDP, 0, 0, 0, HeaderLength(s.addr), payload))
  {
    hide Header, NetworkHeader, Assemble;
    var rest := UdpRest(payload);
    AssembledHeader(s, t, ProtoUDP, rest);
    var u := U16(s.port) + U16(t.port) + rest;
    assert u[..2] == U16(s.port) && u[2..4] == U16(t.port) && u[4..6] == U16(8 + |payload|) && u[8..] == payload;
    assert U16At(u, 0) == U16At(u[..2], 0) && U16At(u, 2) == U16At(u[2..4], 0) && U16At(u, 4) == U16At(u[4..6], 0);
  }

  lemma RepairTouches(d: seq<byte>, r: seq<byte>, off: nat, protocol: Protocol)
    requires d != [] && AgreeButChecksums(d, r, off, protocol)
    ensures AgreeButTouched(d, r, off, protocol)
  {
  }

  lemma RepairedParses(d: seq<byte>)
    requires Parse(d).Ok? && Repairable(d, Parse(d).value.transportOffset, Parse(d).value.protocol) && !MappedOnWire(d)
    ensures var p := Parse(d).value;
            var r := Repaired(d, p.transportOffset, p.protocol);
            Parse(r) == Ok(p.(bytes := r)) && Repairable(r, p.transportOffset, p.protocol)
            && ChecksumsValid(r, p.transportOffset, p.protocol)
  {
    hide Parse, Repaired, ChecksumsValid, SourceAddr, DestinationAddr, U16At, AgreeButChecksums, AgreeButTouched;
    var p := Parse(d).value;
    var r := Repaired(d, p.transportOffset, p.protocol);
    RepairedKeepsEndpoints(d, p.transportOffset, p.protocol);
    RepairedVerifies(d, p.transportOffset, p.protocol);
    RepairTouches(d, r, p.transportOffset, p.protocol);
    ParseFrame(d, r);
    SamePorts(d, p.transportOffset);
  }

  lemma SamePorts(d: seq<byte>, off: nat)
    requires Parse(d).Ok? && Parse(d).value.transportOffset == off && off + 4 <= |d|
    ensures var p := Parse(d).value;
            && p.source == AddrPort(SourceAddr(d), U16At(d, off))
            && p.destination == AddrPort(DestinationAddr(d), U16At(d, off + 2))
            && p.bytes == d
  {
    hide OptionsError, Header;
  }

  /** Parsing a UDP reply gives back the flow's endpoints, swapped and unmapped,
      and exactly the payload; its checksums verify. It is refused just when the
      flow is not UDP, the payload too long or the endpoints unusable. */
  lemma UdpReplyParses(key: FlowKey, payload: seq<byte>)
    ensures UdpReply(key, payload).Ok? <==>
            key.protocol == ProtoUDP && |payload| <= MAX_UDP_PAYLOAD && EndpointPair(key.destination, key.source).Ok?
    ensures UdpReply(key, payload).Ok? ==>
              var r := UdpReply(key, payload).value;
              var (s, t) := EndpointPair(key.destination, key.source).value;
              && Parse(r) == Ok(IpPacket(r, s, t, ProtoUDP, 0, 0, 0, HeaderLength(s.addr), payload))
              && Repairable(r, HeaderLength(s.addr), ProtoUDP) && ChecksumsValid(r, HeaderLength(s.addr), ProtoUDP)
              && U16At(r, HeaderLength(s.addr) + 6) != 0
  {
    hide Assemble, Header, Repaired, ChecksumsValid;
    if UdpReply(key, payload).Ok? {
      var (s, t) := EndpointPair(key.destination, key.source).value;
      var d := Assemble(s, t, ProtoUDP, UdpRest(payload));
      UdpUnrepaired(s, t, payload);
      RepairedParses(d);
      RepairedVerifies(d, HeaderLength(s.addr), ProtoUDP);
    }
  }

  // ---- TCP reset ----

  /** Sequence number, acknowledgment and flags of a reset. */
  datatype Reset = Reset(sequence: uint32, ack: uint32, flags: byte)

  const FIN: byte := 0x01
  const SYN: byte := 0x02
  const RST: byte := 0x04
  const ACK: byte := 0x10

  /** SEG.LEN of RFC 9293: SYN and FIN occupy sequence space. */
  function SegmentLength(p: IpPacket): nat {
    |p.payload| + (if Bit(p.tcpFlags, 2) then 1 else 0) + (if Bit(p.tcpFlags, 1) then 1 else 0)
  }

  /** RFC 9293 section 3.5.2, group 1: <SEQ=SEG.ACK><CTL=RST> for a segment with
      an ACK, else <SEQ=0><ACK=SEG.SEQ+SEG.LEN><CTL=RST,ACK>. */
  function Rfc9293Reset(p: IpPacket): Reset {
    if Bit(p.tcpFlags, 16) then Reset(p.tcpAck, 0, RST)
    else Reset(0, (p.tcpSequence + SegmentLength(p)) % 0x1_0000_0000, RST + ACK)
  }

  function TcpRest(reset: Reset): (r: seq<byte>)
    ensures |r| == 16
  {
    U32(reset.sequence) + U32(reset.ack) + [0x50, reset.flags, 0, 0, 0, 0, 0, 0]
  }

  /** makeTCPReset; Ok(None) means that nothing is answered. */
  function TcpReset(p: IpPacket): Result<Option<seq<byte>>, PacketError> {
    if p.protocol != ProtoTCP then Err(WrongProtocol)
    else if Bit(p.tcpFlags, 4) then Ok(None)
    else if |p.payload| > 0xffff - 20 then Err(BadTransportLength)
    else match EndpointPair(p.destination, p.source)
      case Err(e) => Err(e)
      case Ok((s, t)) =>
        (AssembledHeader(s, t, ProtoTCP, TcpRest(Rfc9293Reset(p)));
         Ok(Some(Repaired(Assemble(s, t, ProtoTCP, TcpRest(Rfc9293Reset(p))), HeaderLength(s.addr), ProtoTCP))))
  }

  lemma TcpUnrepaired(s: AddrPort, t: AddrPort, reset: Reset)
    requires Plain(s.addr) && Plain(t.addr) && s.addr.V4? == t.addr.V4?
    ensures var d := Assemble(s, t, ProtoTCP, TcpRest(reset));
            && Repairable(d, HeaderLength(s.addr), ProtoTCP) && !MappedOnWire(d)
            && Parse(d) == Ok(IpPacket(d, s, t, ProtoTCP, reset.flags, reset.sequence, reset.ack, HeaderLength(s.addr), []))
  {
    hide Header, NetworkHeader, Assemble, U16, U32;
    var rest := TcpRest(reset);
    AssembledHeader(s, t, ProtoTCP, rest);
    var d := Assemble(s, t, ProtoTCP, rest);
    var u := U16(s.port) + U16(t.port) + rest;
    assert u[..2] == U16(s.port) && u[2..4] == U16(t.port);
    assert u[4..8] == U32(reset.sequence) && u[8..12] == U32(reset.ack);
    assert U16At(u, 0) == U16At(u[..2], 0) && U16At(u, 2) == U16At(u[2..4], 0);
    assert U32At(u, 4) == U32At(u[4..8], 0) && U32At(u, 8) == U32At(u[8..12], 0);
    assert |u| == 20;
    assert rest[8..] == [0x50, reset.flags, 0, 0, 0, 0, 0, 0];
    assert u[12] == rest[8] == rest[8..][0] && u[13] == rest[9] == rest[8..][1];
    assert u[20..20] == [];
    assert u[20..] == [];
    assert TcpError(u) == None;
  }

  /** A reset parses as the segment RFC 9293 asks for, from the destination back
      to the source, and verifies; answering that reset yields nothing. */
  lemma TcpResetParses(p: IpPacket)
    requires TcpReset(p).Ok? && TcpReset(p).value.Some?
    ensures var r := TcpReset(p).value.value;
            var (s, t) := EndpointPair(p.destination, p.source).value;
            var reset := Rfc9293Reset(p);
            var q := IpPacket(r, s, t, ProtoTCP, reset.flags, reset.sequence, reset.ack, HeaderLength(s.addr), []);
            && Parse(r) == Ok(q)
            && Repairable(r, HeaderLength(s.addr), ProtoTCP) && ChecksumsValid(r, HeaderLength(s.addr), ProtoTCP)
            && TcpReset(q) == Ok(None)
  {
    hide Assemble, Parse, Repaired, Repairable, ChecksumsValid, TcpRest, EndpointPair, MappedOnWire;
    var (s, t) := EndpointPair(p.destination, p.source).value;
    TcpUnrepaired(s, t, Rfc9293Reset(p));
    RepairedParses(Assemble(s, t, ProtoTCP, TcpRest(Rfc9293Reset(p))));
  }

  /** For a parsed TCP packet the only silent case is a packet with RST set. */
  lemma ResetOfParsed(d: seq<byte>)
    requires Parse(d).Ok? && Parse(d).value.protocol == ProtoTCP
    ensures TcpReset(Parse(d).value).Ok?
    ensures TcpReset(Parse(d).value).value.None? <==> Bit(Parse(d).value.tcpFlags, 4)
  {
    hide OptionsError, Transport6;
    ParsedIsRepairable(d);
    var p := Parse(d).value;
    assert EndpointPair(p.destination, p.source) == Ok((p.destination, p.source));
    assert |p.payload| <= |d| - p.transportOffset - 20;
  }

  /** The network header of the program's own packets: no options, no fragmentation, sixty-four
      hops. */
  ghost predicate OwnHeader(r: seq<byte>) {
    |r| >= 20 &&
    if r[0] / 16 == 4 then
      r[0] == 0x45 && r[1] == 0 && r[4] == 0 && r[5] == 0 && r[6] == 0x40 && r[7] == 0 && r[8] == 64
    else r[0] == 0x60 && r[1] == 0 && r[2] == 0 && r[3] == 0 && r[7] == 64
  }

  lemma AssembledIsOwn(s: AddrPort, t: AddrPort, protocol: Protocol, rest: seq<byte>)
    requires Plain(s.addr) && Plain(t.addr) && s.addr.V4? == t.addr.V4? && |rest| >= 1
    requires 4 + |rest| <= 0xffff && (s.addr.V4? ==> 4 + |rest| <= 0xffff - 20)
    ensures var d := Assemble(s, t, protocol, rest); d != [] && IsIPv4(d) == s.addr.V4? && OwnHeader(d)
  {
    hide U16;
  }

  lemma RepairedIsOwn(d: seq<byte>, off: nat, protocol: Protocol)
    requires Repairable(d, off, protocol) && OwnHeader(d)
    ensures OwnHeader(Repaired(d, off, protocol))
  {
    forall i: nat | i < 9 ensures Repaired(d, off, protocol)[i] == d[i] {
      assert !InChecksum(d, off, protocol, i);
      RepairedFrame(d, off, protocol, i);
    }
    hide Repaired;
  }

  lemma OwnHeaders(key: FlowKey, payload: seq<byte>, p: IpPacket)
    ensures UdpReply(key, payload).Ok? ==> OwnHeader(UdpReply(key, payload).value)
    ensures TcpReset(p).Ok? && TcpReset(p).value.Some? ==> OwnHeader(TcpReset(p).value.value)
  {
    hide Assemble, Repaired, OwnHeader, Repairable, Rfc9293Reset, TcpRest, UdpRest, EndpointPair, Parse;
    if UdpReply(key, payload).Ok? {
      var (s, t) := EndpointPair(key.destination, key.source).value;
      AssembledIsOwn(s, t, ProtoUDP, UdpRest(payload));
      UdpUnrepaired(s, t, payload);
      RepairedIsOwn(Assemble(s, t, ProtoUDP, UdpRest(payload)), HeaderLength(s.addr), ProtoUDP);
    }
    if TcpReset(p).Ok? && TcpReset(p).value.Some? {
      var (s, t) := EndpointPair(p.destination, p.source).value;
      AssembledIsOwn(s, t, ProtoTCP, TcpRest(Rfc9293Reset(p)));
      TcpUnrepaired(s, t, Rfc9293Reset(p));
      RepairedIsOwn(Assemble(s, t, ProtoTCP, TcpRest(Rfc9293Reset(p))), HeaderLength(s.addr), ProtoTCP);
    }
  }

  // ---- The methods ----

  /** newTransportPacket: a zeroed transport part behind a minimal IP header. */
  method NewTransportPacket(source: AddrPort, destination: AddrPort, protocol: Protocol, length: nat)
    returns (r: Result<array<byte>, PacketError>, s: AddrPort, t: AddrPort)
    ensures r.Ok? <==>
            && EndpointPair(source, destination).Ok? && !protocol.OtherProtocol?
            && (if protocol == ProtoUDP then 8 else 20) <= length <= 0xffff
            && (EndpointPair(source, destination).value.0.addr.V4? ==> length <= 0xffff - 20)
    ensures EndpointPair(source, destination).Err? ==> r == Err(EndpointPair(source, destination).error)
    ensures r.Ok? ==> EndpointPair(source, destination) == Ok((s, t)) && fresh(r.value)
    ensures r.Ok? ==> r.value[..] == Assemble(s, t, protocol, Zeros(length - 4))
  {
    s, t := source, destination;
    var pair := EndpointPair(source, destination);
    if pair.Err? {
      return Err(pair.error), s, t;
    }
    s, t := pair.value.0, pair.value.1;
    var headerLength, minimumLength := 40, 20;
    if s.addr.V4? {
      headerLength := 20;
    }
    match protocol {
      case ProtoTCP =>
      case ProtoUDP => minimumLength := 8;
      case OtherProtocol(_) => return Err(WrongProtocol), s, t;
    }
    if length < minimumLength || length > 0xffff || (headerLength == 20 && length > 0xffff - headerLength) {
      return Err(BadTransportLength), s, t;
    }
    var data := new byte[headerLength + length](_ => 0);
    WriteStart(data, NetworkHeader(s.addr, t.addr, ProtocolByte(protocol), length), U16(s.port), U16(t.port));
    r := Ok(data);
  }

  lemma StartOfZeros(a: seq<byte>, b: seq<byte>, c: seq<byte>, n: nat)
    requires |a| + |b| + |c| <= n
    ensures Splice(Zeros(n), 0, a + b + c) == a + (b + c + Zeros(n - |a + b + c|))
  {
  }

  /** Header and ports at the start of a zeroed buffer. */
  method WriteStart(data: array<byte>, header: seq<byte>, source: seq<byte>, destination: seq<byte>)
    requires |header| + |source| + |destination| <= data.Length && data[..] == Zeros(data.Length)
    modifies data
    ensures data[..] == header + (source + destination + Zeros(data.Length - |header + source + destination|))
  {
    hide Splice, Zeros;
    ghost var z := data[..];
    Write(data, 0, header);
    Write(data, |header|, source);
    Write(data, |header| + |source|, destination);
    SpliceAdjacent(z, 0, header, source);
    assert |header + source| == |header| + |source|;
    SpliceAdjacent(z, 0, header + source, destination);
    StartOfZeros(header, source, destination, data.Length);
  }

  method MakeUDPReply(key: FlowKey, payload: seq<byte>) returns (r: Result<seq<byte>, PacketError>)
    ensures r == UdpReply(key, payload)
  {
    hide Repaired, ChecksumsValid, Parse, NetworkHeader, Assemble, UdpRest;
    if key.protocol != ProtoUDP {
      return Err(WrongProtocol);
    }
    if |payload| > MAX_UDP_PAYLOAD {
      return Err(OversizedUDP);
    }
    var made, s, t := NewTransportPacket(key.destination, key.source, ProtoUDP, 8 + |payload|);
    if made.Err? {
      return Err(made.error);
    }
    var data := made.value;
    WriteDatagram(data, s, t, payload);
    UdpUnrepaired(s, t, payload);
    RepairPacketChecksums(data, HeaderLength(s.addr), ProtoUDP);
    return Ok(data[..]);
  }

  lemma FilledDatagram(length: seq<byte>, payload: seq<byte>)
    requires |length| == 2
    ensures Splice(Splice(Zeros(4 + |payload|), 0, length), 4, payload) == length + [0, 0] + payload
  {
  }

  method WriteDatagram(data: array<byte>, s: AddrPort, t: AddrPort, payload: seq<byte>)
    requires Plain(s.addr) && Plain(t.addr) && s.addr.V4? == t.addr.V4? && |payload| <= MAX_UDP_PAYLOAD
    requires data[..] == Assemble(s, t, ProtoUDP, Zeros(4 + |payload|))
    modifies data
    ensures data[..] == Assemble(s, t, ProtoUDP, UdpRest(payload))
  {
    hide NetworkHeader, U16, Splice;
    var off, n := HeaderLength(s.addr), 4 + |payload|;
    ghost var head := NetworkHeader(s.addr, t.addr, ProtocolByte(ProtoUDP), 4 + n) + (U16(s.port) + U16(t.port));
    assert data[..] == head + Zeros(n);
    Write(data, off + 4, U16(8 + |payload|));
    Write(data, off + 8, payload);
    SpliceOfConcat(head, Zeros(n), 0, U16(8 + |payload|));
    ghost var rest := Splice(Zeros(n), 0, U16(8 + |payload|));
    SpliceOfConcat(head, rest, 4, payload);
    FilledDatagram(U16(8 + |payload|), payload);
    assert data[..] == head + UdpRest(payload);
  }

  /** The sequence arithmetic of packet.go:345-358, in uint32. */
  method ResetFor(packet: IpPacket) returns (reset: Reset)
    ensures reset == Rfc9293Reset(packet)
  {
    if Bit(packet.tcpFlags, 16) {
      return Reset(packet.tcpAck, 0, RST);
    }
    var ack: uint32 := (packet.tcpSequence + |packet.payload|) % 0x1_0000_0000;
    if Bit(packet.tcpFlags, 2) { // SYN consumes one sequence number
      ack := (ack + 1) % 0x1_0000_0000;
    }
    if Bit(packet.tcpFlags, 1) { // FIN also consumes one
      ack := (ack + 1) % 0x1_0000_0000;
    }
    return Reset(0, ack, RST + ACK);
  }

  method MakeTCPReset(packet: IpPacket) returns (r: Result<Option<seq<byte>>, PacketError>)
    ensures r == TcpReset(packet)
  {
    hide Repaired, ChecksumsValid, Parse, NetworkHeader, U32, Assemble, TcpRest;
    if packet.protocol != ProtoTCP {
      return Err(WrongProtocol);
    }
    if Bit(packet.tcpFlags, 4) {
      return Ok(None);
    }
    if |packet.payload| > 0xffff - 20 {
      return Err(BadTransportLength);
    }
    var made, s, t := NewTransportPacket(packet.destination, packet.source, ProtoTCP, 20);
    if made.Err? {
      return Err(made.error);
    }
    var data, off := made.value, HeaderLength(s.addr);
    var reset := ResetFor(packet);
    WriteReset(data, s, t, reset);
    TcpUnrepaired(s, t, reset);
    RepairPacketChecksums(data, off, ProtoTCP);
    return Ok(Some(data[..]));
  }

  method WriteReset(data: array<byte>, s: AddrPort, t: AddrPort, reset: Reset)
    requires Plain(s.addr) && Plain(t.addr) && s.addr.V4? == t.addr.V4?
    requires data[..] == Assemble(s, t, ProtoTCP, Zeros(16))
    modifies data
    ensures data[..] == Assemble(s, t, ProtoTCP, TcpRest(reset))
  {
    hide NetworkHeader, U16, U32, Splice, TcpRest;
    var off := HeaderLength(s.addr);
    ghost var head := NetworkHeader(s.addr, t.addr, ProtocolByte(ProtoTCP), 20) + (U16(s.port) + U16(t.port));
    assert data[..] == head + Zeros(16);
    Write(data, off + 12, [0x50, reset.flags]);
    SpliceOfConcat(head, Zeros(16), 8, [0x50, reset.flags]);
    ghost var rest := Splice(Zeros(16), 8, [0x50, reset.flags]);
    Write(data, off + 4, U32(reset.sequence));
    Write(data, off + 8, U32(reset.ack));
    SpliceOfConcat(head, rest, 0, U32(reset.sequence));
    SpliceOfConcat(head, Splice(rest, 0, U32(reset.sequence)), 4, U32(reset.ack));
    ResetFilled(reset);
    assert data[..] == head + TcpRest(reset);
  }

  lemma ResetFilled(reset: Reset)
    ensures Splice(Splice(Splice(Zeros(16), 8, [0x50, reset.flags]), 0, U32(reset.sequence)), 4, U32(reset.ack)) == TcpRest(reset)
  {
    hide U32;
    var rest := Splice(Zeros(16), 8, [0x50, reset.flags]);
    assert rest[8..] == [0x50, reset.flags, 0, 0, 0, 0, 0, 0];
    assert Splice(rest, 0, U32(reset.sequence))[8..] == rest[8..];
  }
}
