/** parseIPPacket: complete IPv4/IPv6 packets with options and extension headers
    (RFC 791 section 3.1, RFC 8200 section 4, RFC 9293 section 3.1). */
module Packet {
  import opened Bytes
  import opened Addresses

  const MAX_UDP_PAYLOAD := 65507

  datatype PacketError =
    | EmptyPacket | UnsupportedVersion
    | TruncatedIPv4 | BadIPv4HeaderLength | BadIPv4TotalLength | ReservedIPv4Flag | FragmentedIPv4
    | TruncatedOption | BadOptionLength | SourceRouting
    | TruncatedIPv6 | EmptyIPv6Payload | BadIPv6Length | MappedIPv6Address
    | TruncatedExtension | BadExtensionLength | LateHopByHop | ActiveIPv6Routing
    | DuplicateFragment | TruncatedFragment | ReservedFragmentBits | FragmentedIPv6 | EncryptedIPv6 | UnsupportedNextHeader
    | TruncatedIPv6Option | BadIPv6OptionLength | JumboOrHomeAddress
    | TruncatedTCP | BadTCPHeaderLength | TruncatedUDP | BadUDPLength | OversizedUDP | UnsupportedTransport
    | InvalidEndpoint | ZonedEndpoint | MixedFamilies | FamilyChange
    | WrongProtocol | BadTransportLength

  datatype IpPacket = IpPacket(
    bytes: seq<byte>,
    source: AddrPort, destination: AddrPort,
    protocol: Protocol,
    tcpFlags: byte, tcpSequence: uint32, tcpAck: uint32,
    transportOffset: nat,
    payload: seq<byte>)

  /** A set bit of a byte. */
  predicate Bit(b: byte, mask: int)
    requires mask in {1, 2, 4, 8, 16, 32, 64, 128}
  {
    b / mask % 2 == 1
  }

  // ---- IPv4 and TCP options ----

  function OptionsError(o: seq<byte>, ipv4: bool): Option<PacketError> {
    if o == [] || o[0] == 0 then None
    else if o[0] == 1 then OptionsError(o[1..], ipv4)
    else if |o| < 2 then Some(TruncatedOption)
    else if o[1] < 2 || o[1] > |o| then Some(BadOptionLength)
    else if ipv4 && (o[0] == 131 || o[0] == 137) then Some(SourceRouting)
    else OptionsError(o[o[1]..], ipv4)
  }

  method ValidatePacketOptions(options: seq<byte>, ipv4: bool) returns (error: Option<PacketError>)
    ensures error == OptionsError(options, ipv4)
  {
    var offset := 0;
    while offset < |options|
      invariant offset <= |options|
      invariant OptionsError(options, ipv4) == OptionsError(options[offset..], ipv4)
    {
      var kind := options[offset];
      if kind == 0 {
        return None;
      }
      if kind == 1 {
        assert options[offset..][1..] == options[offset + 1..];
        offset := offset + 1;
        continue;
      }
      if offset + 2 > |options| {
        return Some(TruncatedOption);
      }
      var length := options[offset + 1];
      if length < 2 || length > |options| - offset {
        return Some(BadOptionLength);
      }
      if ipv4 && (kind == 131 || kind == 137) {
        return Some(SourceRouting);
      }
      assert options[offset..][length..] == options[offset + length..];
      offset := offset + length;
    }
    return None;
  }

  /** The option grammar of RFC 791 and RFC 9293, independent of the parser. */
  datatype IpOption = Nop | Tlv(kind: byte, data: seq<byte>)
  {
    predicate Legal(ipv4: bool) {
      Tlv? ==> kind > 1 && |data| <= 253 && !(ipv4 && (kind == 131 || kind == 137))
    }

    function Print(): seq<byte>
      requires Tlv? ==> |data| <= 253
    {
      if Nop? then [1] else [kind, |data| + 2] + data
    }
  }

  /** o is a list of legal options, then nothing or End-of-options and padding. */
  predicate Spells(options: seq<IpOption>, tail: seq<byte>, o: seq<byte>, ipv4: bool) {
    if options == [] then o == tail && (tail == [] || tail[0] == 0)
    else
      && options[0].Legal(ipv4)
      && options[0].Print() <= o
      && Spells(options[1..], tail, o[|options[0].Print()|..], ipv4)
  }

  lemma {:induction false} SpellAccepted(o: seq<byte>, ipv4: bool) returns (options: seq<IpOption>, tail: seq<byte>)
    requires OptionsError(o, ipv4) == None
    ensures Spells(options, tail, o, ipv4)
  {
    if o == [] || o[0] == 0 {
      return [], o;
    }
    var first := if o[0] == 1 then Nop else Tlv(o[0], o[2..o[1]]);
    var rest: seq<IpOption>;
    rest, tail := SpellAccepted(o[|first.Print()|..], ipv4);
    options := [first] + rest;
    assert first.Print() == o[..|first.Print()|];
  }

  lemma {:induction false} SpelledIsAccepted(options: seq<IpOption>, tail: seq<byte>, o: seq<byte>, ipv4: bool)
    requires Spells(options, tail, o, ipv4)
    ensures OptionsError(o, ipv4) == None
  {
    if options != [] {
      var p := options[0].Print();
      assert forall i :: 0 <= i < |p| ==> o[i] == p[i];
      SpelledIsAccepted(options[1..], tail, o[|p|..], ipv4);
    }
  }

  ghost predicate Grammatical(o: seq<byte>, ipv4: bool) {
    exists options: seq<IpOption>, tail: seq<byte> :: Spells(options, tail, o, ipv4)
  }

  /** validatePacketOptions accepts exactly the strings of the grammar. */
  lemma OptionsGrammar(o: seq<byte>, ipv4: bool)
    ensures OptionsError(o, ipv4) == None <==> Grammatical(o, ipv4)
  {
    hide Spells, OptionsError;
    if OptionsError(o, ipv4) == None {
      var options, tail := SpellAccepted(o, ipv4);
      assert Spells(options, tail, o, ipv4);
    }
    if Grammatical(o, ipv4) {
      var options: seq<IpOption>, tail: seq<byte> :| Spells(options, tail, o, ipv4);
      SpelledIsAccepted(options, tail, o, ipv4);
    }
  }

  // ---- IPv6 extension headers ----

  function Options6Error(o: seq<byte>): Option<PacketError> {
    if o == [] then None
    else if o[0] == 0 then Options6Error(o[1..])
    else if |o| < 2 then Some(TruncatedIPv6Option)
    else if o[1] + 2 > |o| then Some(BadIPv6OptionLength)
    else if o[0] == 0xc2 || o[0] == 0xc9 then Some(JumboOrHomeAddress)
    else Options6Error(o[o[1] + 2..])
  }

  method ValidateIPv6PacketOptions(options: seq<byte>) returns (error: Option<PacketError>)
    ensures error == Options6Error(options)
  {
    var offset := 0;
    while offset < |options|
      invariant offset <= |options|
      invariant Options6Error(options) == Options6Error(options[offset..])
    {
      var kind := options[offset];
      if kind == 0 {
        assert options[offset..][1..] == options[offset + 1..];
        offset := offset + 1;
        continue;
      }
      if offset + 2 > |options| {
        return Some(TruncatedIPv6Option);
      }
      var length := options[offset + 1] as int + 2;
      if length > |options| - offset {
        return Some(BadIPv6OptionLength);
      }
      if kind == 0xc2 || kind == 0xc9 {
        return Some(JumboOrHomeAddress);
      }
      assert options[offset..][length..] == options[offset + length..];
      offset := offset + length;
    }
    return None;
  }

  /** One Hop-by-Hop, Routing or Destination Options header at `at`: its length
      in bytes or the reason it is refused. */
  function Extension(d: seq<byte>, next: byte, at: nat): (r: Result<nat, PacketError>)
    ensures r.Ok? ==> 8 <= r.value && at + r.value <= |d|
  {
    if at + 8 > |d| then Err(TruncatedExtension) else
    var length := (d[at + 1] as int + 1) * 8;
    if length > |d| - at then Err(BadExtensionLength)
    else if next == 0 && at != 40 then Err(LateHopByHop)
    else if next == 43 then if d[at + 3] != 0 then Err(ActiveIPv6Routing) else Ok(length)
    else match Options6Error(d[at + 2..at + length])
      case Some(e) => Err(e)
      case None => Ok(length)
  }

  /** A Fragment header at `at` is accepted only as an atomic fragment. */
  function AtomicFragment(d: seq<byte>, at: nat, fragmentSeen: bool): (r: Option<PacketError>)
    ensures r.None? ==> at + 8 <= |d|
  {
    if fragmentSeen then Some(DuplicateFragment)
    else if at + 8 > |d| then Some(TruncatedFragment)
    else if d[at + 1] != 0 || d[at + 3] / 2 % 4 != 0 then Some(ReservedFragmentBits)
    else if U16At(d, at + 2) != 0 then Some(FragmentedIPv6)
    else None
  }

  /** Walks the extension headers from `at` to the TCP or UDP header. */
  function Transport6(d: seq<byte>, next: byte, at: nat, fragmentSeen: bool): (r: Result<(nat, byte), PacketError>)
    requires at <= |d|
    ensures r.Ok? ==> at <= r.value.0 <= |d| && r.value.1 in {6, 17}
    decreases |d| - at
  {
    if next == 0 || next == 43 || next == 60 then
      (match Extension(d, next, at)
       case Err(e) => Err(e)
       case Ok(length) => Transport6(d, d[at], at + length, fragmentSeen))
    else if next == 44 then
      (match AtomicFragment(d, at, fragmentSeen)
       case Some(e) => Err(e)
       case None => Transport6(d, d[at], at + 8, true))
    else if next == 50 || next == 51 then Err(EncryptedIPv6)
    else if next == 6 || next == 17 then Ok((at, next))
    else Err(UnsupportedNextHeader)
  }

  method CheckExtension(data: seq<byte>, next: byte, offset: nat) returns (r: Result<nat, PacketError>)
    ensures r == Extension(data, next, offset)
  {
    if offset + 8 > |data| {
      return Err(TruncatedExtension);
    }
    var length := (data[offset + 1] as int + 1) * 8;
    if length > |data| - offset {
      return Err(BadExtensionLength);
    }
    if next == 0 && offset != 40 {
      return Err(LateHopByHop);
    }
    if next == 43 {
      if data[offset + 3] != 0 {
        return Err(ActiveIPv6Routing);
      }
    } else {
      var error := ValidateIPv6PacketOptions(data[offset + 2..offset + length]);
      if error.Some? {
        return Err(error.value);
      }
    }
    return Ok(length);
  }

  method Ipv6PacketTransport(data: seq<byte>) returns (r: Result<(nat, byte), PacketError>)
    requires |data| >= 40
    ensures r == Transport6(data, data[6], 40, false)
  {
    var next, offset := data[6], 40;
    var fragmentSeen := false;
    while true
      invariant 40 <= offset <= |data|
      invariant Transport6(data, data[6], 40, false) == Transport6(data, next, offset, fragmentSeen)
      decreases |data| - offset
    {
      if next == 0 || next == 43 || next == 60 {
        var extension := CheckExtension(data, next, offset);
        if extension.Err? {
          return Err(extension.error);
        }
        next, offset := data[offset], offset + extension.value;
      } else if next == 44 {
        var error := AtomicFragment(data, offset, fragmentSeen);
        if error.Some? {
          return Err(error.value);
        }
        fragmentSeen := true;
        next, offset := data[offset], offset + 8;
      } else if next == 50 || next == 51 {
        return Err(EncryptedIPv6);
      } else if next == 6 || next == 17 {
        return Ok((offset, next));
      } else {
        return Err(UnsupportedNextHeader);
      }
    }
  }

  // ---- The network header ----

  predicate IsIPv4(d: seq<byte>)
    requires d != []
  {
    d[0] / 16 == 4
  }

  function Header4(d: seq<byte>): (r: Result<(nat, byte), PacketError>)
    ensures r.Ok? ==> 20 <= r.value.0 <= |d| && r.value.0 % 4 == 0
  {
    if |d| < 20 then Err(TruncatedIPv4) else
    var offset := d[0] % 16 * 4;
    if offset < 20 || offset > |d| then Err(BadIPv4HeaderLength)
    else if U16At(d, 2) < offset || U16At(d, 2) != |d| then Err(BadIPv4TotalLength)
    else if d[6] / 128 == 1 then Err(ReservedIPv4Flag)
    else if U16At(d, 6) % 0x4000 != 0 then Err(FragmentedIPv4)
    else match OptionsError(d[20..offset], true)
      case Some(e) => Err(e)
      case None => Ok((offset, d[9]))
  }

  function Header6(d: seq<byte>): (r: Result<(nat, byte), PacketError>)
    ensures r.Ok? ==> 40 <= r.value.0 <= |d| <= 40 + 0xffff
  {
    if |d| < 40 then Err(TruncatedIPv6)
    else if U16At(d, 4) == 0 then Err(EmptyIPv6Payload)
    else if U16At(d, 4) + 40 != |d| then Err(BadIPv6Length)
    else if V6(d[8..24], "").Is4In6() || V6(d[24..40], "").Is4In6() then Err(MappedIPv6Address)
    else Transport6(d, d[6], 40, false)
  }

  function Header(d: seq<byte>): (r: Result<(nat, byte), PacketError>)
    ensures r.Ok? ==> d != [] && r.value.0 <= |d| && |d| >= if IsIPv4(d) then 20 else 40
    ensures r.Ok? ==> |d| <= 40 + 0xffff && r.value.0 >= if IsIPv4(d) then 20 else 40
  {
    if d == [] then Err(EmptyPacket)
    else if d[0] / 16 == 4 then Header4(d)
    else if d[0] / 16 == 6 then Header6(d)
    else Err(UnsupportedVersion)
  }

  function SourceAddr(d: seq<byte>): Addr
    requires d != [] && |d| >= if IsIPv4(d) then 20 else 40
  {
    if IsIPv4(d) then V4(d[12..16]) else V6(d[8..24], "")
  }

  function DestinationAddr(d: seq<byte>): Addr
    requires d != [] && |d| >= if IsIPv4(d) then 20 else 40
  {
    if IsIPv4(d) then V4(d[16..20]) else V6(d[24..40], "")
  }

  // ---- The whole packet ----

  function TcpError(t: seq<byte>): (r: Option<PacketError>)
    ensures r.None? ==> |t| >= 20 && 20 <= t[12] / 16 * 4 <= |t|
  {
    if |t| < 20 then Some(TruncatedTCP) else
    var length := t[12] / 16 * 4;
    if length < 20 || length > |t| then Some(BadTCPHeaderLength)
    else OptionsError(t[20..length], false)
  }

  function UdpError(t: seq<byte>): (r: Option<PacketError>)
    ensures r.None? ==> |t| >= 8
  {
    if |t| < 8 then Some(TruncatedUDP)
    else if U16At(t, 4) < 8 || U16At(t, 4) != |t| then Some(BadUDPLength)
    else if |t| - 8 > MAX_UDP_PAYLOAD then Some(OversizedUDP)
    else None
  }

  /** The packet value for accepted bytes d with the transport header at off. */
  function TcpPacket(d: seq<byte>, off: nat): IpPacket
    requires d != [] && off <= |d| && |d| >= if IsIPv4(d) then 20 else 40
    requires TcpError(d[off..]).None?
  {
    var t := d[off..];
    IpPacket(d, AddrPort(SourceAddr(d), U16At(t, 0)), AddrPort(DestinationAddr(d), U16At(t, 2)),
             ProtoTCP, t[13], U32At(t, 4), U32At(t, 8), off, t[t[12] / 16 * 4..])
  }

  function UdpPacket(d: seq<byte>, off: nat): IpPacket
    requires d != [] && off <= |d| && |d| >= if IsIPv4(d) then 20 else 40
    requires UdpError(d[off..]).None?
  {
    var t := d[off..];
    IpPacket(d, AddrPort(SourceAddr(d), U16At(t, 0)), AddrPort(DestinationAddr(d), U16At(t, 2)),
             ProtoUDP, 0, 0, 0, off, t[8..])
  }

  function Parse(d: seq<byte>): Result<IpPacket, PacketError> {
    match Header(d)
    case Err(e) => Err(e)
    case Ok((off, next)) =>
      if next == 6 then
        (match TcpError(d[off..])
         case Some(e) => Err(e)
         case None => Ok(TcpPacket(d, off)))
      else if next == 17 then
        (match UdpError(d[off..])
         case Some(e) => Err(e)
         case None => Ok(UdpPacket(d, off)))
      else Err(UnsupportedTransport)
  }

  method ParseIPPacket(data: seq<byte>) returns (r: Result<IpPacket, PacketError>)
    ensures r == Parse(data)
  {
    if |data| == 0 {
      return Err(EmptyPacket);
    }
    var source, destination := NoAddr, NoAddr;
    var next: byte, offset: nat := 0, 0;
    if data[0] / 16 == 4 {
      if |data| < 20 {
        return Err(TruncatedIPv4);
      }
      offset := data[0] % 16 * 4;
      if offset < 20 || offset > |data| {
        return Err(BadIPv4HeaderLength);
      }
      var total := U16At(data, 2);
      if total < offset || total != |data| {
        return Err(BadIPv4TotalLength);
      }
      var fragment := U16At(data, 6);
      if fragment / 0x8000 != 0 {
        return Err(ReservedIPv4Flag);
      }
      if fragment % 0x4000 != 0 {
        return Err(FragmentedIPv4);
      }
      var error := ValidatePacketOptions(data[20..offset], true);
      if error.Some? {
        return Err(error.value);
      }
      source, destination, next := V4(data[12..16]), V4(data[16..20]), data[9];
    } else if data[0] / 16 == 6 {
      if |data| < 40 {
        return Err(TruncatedIPv6);
      }
      var payloadLength := U16At(data, 4);
      if payloadLength == 0 {
        return Err(EmptyIPv6Payload);
      }
      if payloadLength as int + 40 != |data| {
        return Err(BadIPv6Length);
      }
      source, destination := V6(data[8..24], ""), V6(data[24..40], "");
      if source.Is4In6() || destination.Is4In6() {
        return Err(MappedIPv6Address);
      }
      var found := Ipv6PacketTransport(data);
      if found.Err? {
        return Err(found.error);
      }
      offset, next := found.value.0, found.value.1;
    } else {
      return Err(UnsupportedVersion);
    }
    assert Header(data) == Ok((offset, next));
    var transport := data[offset..];
    if next == 6 {
      if |transport| < 20 {
        return Err(TruncatedTCP);
      }
      var headerLength := transport[12] / 16 * 4;
      if headerLength < 20 || headerLength > |transport| {
        return Err(BadTCPHeaderLength);
      }
      var error := ValidatePacketOptions(transport[20..headerLength], false);
      if error.Some? {
        return Err(error.value);
      }
      return Ok(IpPacket(data, AddrPort(source, U16At(transport, 0)), AddrPort(destination, U16At(transport, 2)),
                         ProtoTCP, transport[13], U32At(transport, 4), U32At(transport, 8),
                         offset, transport[headerLength..]));
    } else if next == 17 {
      if |transport| < 8 {
        return Err(TruncatedUDP);
      }
      var length := U16At(transport, 4);
      if length < 8 || length != |transport| {
        return Err(BadUDPLength);
      }
      if |transport| - 8 > MAX_UDP_PAYLOAD {
        return Err(OversizedUDP);
      }
      return Ok(IpPacket(data, AddrPort(source, U16At(transport, 0)), AddrPort(destination, U16At(transport, 2)),
                         ProtoUDP, 0, 0, 0, offset, transport[8..]));
    } else {
      return Err(UnsupportedTransport);
    }
  }
}
