/** rewriteIPPacket: new endpoints written into an accepted packet in place. */
module Rewrite {
  import opened Bytes
  import opened Addresses
  import opened Packet
  import opened Repair

  // ---- The parser reads none of the bytes a rewrite touches ----

  /** d and e have the same bytes from index i up to j. */
  ghost predicate Same(d: seq<byte>, e: seq<byte>, i: nat, j: nat) {
    |d| == |e| && j <= |d| && forall k :: i <= k < j ==> d[k] == e[k]
  }

  lemma ExtensionFrame(d: seq<byte>, e: seq<byte>, next: byte, at: nat)
    requires Extension(d, next, at).Ok? && Same(d, e, at, at + Extension(d, next, at).value)
    ensures Extension(e, next, at) == Extension(d, next, at)
  {
    hide Options6Error;
    var n := Extension(d, next, at).value;
    assert d[at + 2..at + n] == e[at + 2..at + n];
  }

  lemma {:induction false} Transport6Frame(d: seq<byte>, e: seq<byte>, next: byte, at: nat, seen: bool, off: nat)
    requires |d| == |e| && at <= |d|
    requires Transport6(d, next, at, seen).Ok? && Transport6(d, next, at, seen).value.0 == off
    requires Same(d, e, at, off)
    ensures Transport6(e, next, at, seen) == Transport6(d, next, at, seen)
    decreases |d| - at
  {
    hide Extension, Options6Error;
    if next == 0 || next == 43 || next == 60 {
      var n := Extension(d, next, at).value;
      Transport6Reaches(d, d[at], at + n, seen);
      ExtensionFrame(d, e, next, at);
      Transport6Frame(d, e, d[at], at + n, seen, off);
    } else if next == 44 {
      Transport6Reaches(d, d[at], at + 8, true);
      assert U16At(d, at + 2) == U16At(e, at + 2);
      Transport6Frame(d, e, d[at], at + 8, true, off);
    }
  }

  lemma Transport6Reaches(d: seq<byte>, next: byte, at: nat, seen: bool)
    requires at <= |d| && Transport6(d, next, at, seen).Ok?
    ensures at <= Transport6(d, next, at, seen).value.0
  {
  }

  /** Where the two addresses (and before them the IPv4 checksum) live. */
  predicate InAddresses(d: seq<byte>, i: nat)
    requires d != []
  {
    if IsIPv4(d) then 10 <= i < 20 else 8 <= i < 40
  }

  /** The bytes of addresses, ports and checksums. */
  predicate Touched(d: seq<byte>, off: nat, protocol: Protocol, i: nat)
    requires d != []
  {
    InAddresses(d, i) || off <= i < off + 4 || InChecksum(d, off, protocol, i)
  }

  ghost predicate AgreeButTouched(d: seq<byte>, e: seq<byte>, off: nat, protocol: Protocol)
    requires d != []
  {
    |d| == |e| && forall i :: 0 <= i < |d| && !Touched(d, off, protocol, i) ==> d[i] == e[i]
  }

  predicate MappedOnWire(d: seq<byte>)
    requires d != [] && |d| >= if IsIPv4(d) then 20 else 40
  {
    SourceAddr(d).Is4In6() || DestinationAddr(d).Is4In6()
  }

  lemma HeaderFrame(d: seq<byte>, e: seq<byte>, protocol: Protocol)
    requires Header(d).Ok?
    requires AgreeButTouched(d, e, Header(d).value.0, protocol)
    requires |e| >= (if IsIPv4(d) then 20 else 40) && e[0] == d[0] && !MappedOnWire(e)
    ensures Header(e) == Header(d)
  {
    hide Transport6, OptionsError;
    var (off, next) := Header(d).value;
    if IsIPv4(d) {
      assert d[20..off] == e[20..off];
    } else {
      Transport6Frame(d, e, d[6], 40, false, off);
    }
  }

  /** The packet p as it reads after its endpoints were replaced by those in e. */
  function Readdressed(p: IpPacket, e: seq<byte>): IpPacket
    requires e != [] && (if IsIPv4(e) then 20 else 40) <= p.transportOffset && p.transportOffset + 4 <= |e|
  {
    p.(bytes := e,
       source := AddrPort(SourceAddr(e), U16At(e, p.transportOffset)),
       destination := AddrPort(DestinationAddr(e), U16At(e, p.transportOffset + 2)))
  }

  lemma TcpFrame(d: seq<byte>, e: seq<byte>, off: nat)
    requires d != [] && (if IsIPv4(d) then 20 else 40) <= off <= |d| && TcpError(d[off..]).None?
    requires AgreeButTouched(d, e, off, ProtoTCP) && e[0] == d[0]
    ensures TcpError(e[off..]).None? && TcpPacket(e, off) == Readdressed(TcpPacket(d, off), e)
  {
    hide OptionsError, SourceAddr, DestinationAddr;
    var t, u := d[off..], e[off..];
    assert forall k :: 4 <= k < |t| && !(16 <= k < 18) ==> t[k] == u[k];
    var n := t[12] / 16 * 4;
    assert t[20..n] == u[20..n];
    assert t[n..] == u[n..];
  }

  lemma UdpFrame(d: seq<byte>, e: seq<byte>, off: nat)
    requires d != [] && (if IsIPv4(d) then 20 else 40) <= off <= |d| && UdpError(d[off..]).None?
    requires AgreeButTouched(d, e, off, ProtoUDP) && e[0] == d[0]
    ensures UdpError(e[off..]).None? && UdpPacket(e, off) == Readdressed(UdpPacket(d, off), e)
  {
    hide SourceAddr, DestinationAddr;
    var t, u := d[off..], e[off..];
    assert forall k :: 4 <= k < |t| && !(6 <= k < 8) ==> t[k] == u[k];
    assert t[8..] == u[8..];
  }

  /** The parse of e, where e differs from the accepted d only in touched bytes. */
  lemma ParseFrame(d: seq<byte>, e: seq<byte>)
    requires Parse(d).Ok?
    requires var p := Parse(d).value; AgreeButTouched(d, e, p.transportOffset, p.protocol)
    requires d != [] && |e| >= (if IsIPv4(d) then 20 else 40) && e[0] == d[0] && !MappedOnWire(e)
    ensures Parse(d).value.transportOffset + 4 <= |e|
    ensures Parse(e) == Ok(Readdressed(Parse(d).value, e))
  {
    hide OptionsError, Header, TcpError, UdpError;
    var p := Parse(d).value;
    HeaderFrame(d, e, p.protocol);
    if p.protocol == ProtoTCP {
      TcpFrame(d, e, p.transportOffset);
    } else {
      UdpFrame(d, e, p.transportOffset);
    }
  }

  // ---- Endpoints ----

  /** packetEndpointPair: both endpoints unmapped, or why they cannot be used. */
  function EndpointPair(source: AddrPort, destination: AddrPort): (r: Result<(AddrPort, AddrPort), PacketError>)
    ensures r.Ok? ==> r.value.0.addr.V4? == r.value.1.addr.V4?
    ensures r.Ok? ==> Plain(r.value.0.addr) && Plain(r.value.1.addr)
  {
    if source.addr.NoAddr? || destination.addr.NoAddr? then Err(InvalidEndpoint)
    else if source.addr.HasZone() || destination.addr.HasZone() then Err(ZonedEndpoint)
    else
      var s := source.(addr := source.addr.Unmap());
      var t := destination.(addr := destination.addr.Unmap());
      if s.addr.V4? != t.addr.V4? then Err(MixedFamilies) else Ok((s, t))
  }

  /** An address that can stand on the wire: no zone, not IPv4-mapped. */
  predicate Plain(a: Addr) {
    a.V4? || (a.V6? && a.zone == "" && !a.Is4In6())
  }

  /** d with the two endpoints written into it. */
  function WithEndpoints(d: seq<byte>, off: nat, s: AddrPort, t: AddrPort): (r: seq<byte>)
    requires d != [] && (if IsIPv4(d) then 20 else 40) <= off && off + 4 <= |d|
    requires Plain(s.addr) && Plain(t.addr) && s.addr.V4? == t.addr.V4? == IsIPv4(d)
    ensures |r| == |d|
  {
    Splice(Splice(d, if IsIPv4(d) then 12 else 8, s.addr.Wire() + t.addr.Wire()), off, U16(s.port) + U16(t.port))
  }

  lemma EndpointsWritten(d: seq<byte>, off: nat, protocol: Protocol, s: AddrPort, t: AddrPort)
    requires d != [] && (if IsIPv4(d) then 20 else 40) <= off && off + 4 <= |d|
    requires Plain(s.addr) && Plain(t.addr) && s.addr.V4? == t.addr.V4? == IsIPv4(d)
    ensures var r := WithEndpoints(d, off, s, t);
            && r[0] == d[0] && AgreeButTouched(d, r, off, protocol)
            && SourceAddr(r) == s.addr && DestinationAddr(r) == t.addr
            && U16At(r, off) == s.port && U16At(r, off + 2) == t.port
  {
    hide U16;
    var a := if IsIPv4(d) then 12 else 8;
    var v := s.addr.Wire() + t.addr.Wire();
    var m := Splice(d, a, v);
    var r := WithEndpoints(d, off, s, t);
    var w := U16(s.port) + U16(t.port);
    SpliceOutside(d, a, v);
    SpliceOutside(m, off, w);
    PortsAt(r, off, s.port, t.port);
    assert r[a..a + |v|] == m[a..a + |v|] == v by {
      assert forall i :: a <= i < a + |v| ==> r[i] == m[i];
    }
    hide Splice, WithEndpoints;
    assert r[0] == d[0];
    AddressesAt(r, s.addr, t.addr);
  }

  lemma SpliceOutside(d: seq<byte>, a: nat, v: seq<byte>)
    requires a + |v| <= |d|
    ensures Splice(d, a, v)[a..a + |v|] == v
    ensures forall i :: 0 <= i < |d| && !(a <= i < a + |v|) ==> Splice(d, a, v)[i] == d[i]
  {
  }

  lemma PortsAt(r: seq<byte>, off: nat, s: uint16, t: uint16)
    requires off + 4 <= |r| && r[off..off + 4] == U16(s) + U16(t)
    ensures U16At(r, off) == s && U16At(r, off + 2) == t
  {
    hide U16;
    var w := U16(s) + U16(t);
    assert U16At(r, off) == U16At(w, 0) && U16At(r, off + 2) == U16At(w, 2);
    assert w[..2] == U16(s) && w[2..] == U16(t);
    assert U16At(w, 0) == U16At(w[..2], 0) && U16At(w, 2) == U16At(w[2..], 0);
  }

  lemma AddressesAt(r: seq<byte>, s: Addr, t: Addr)
    requires r != [] && |r| >= (if IsIPv4(r) then 20 else 40)
    requires Plain(s) && Plain(t) && s.V4? == t.V4? == IsIPv4(r)
    requires var a, v := if IsIPv4(r) then 12 else 8, s.Wire() + t.Wire(); r[a..a + |v|] == v
    ensures SourceAddr(r) == s && DestinationAddr(r) == t
  {
    var v := s.Wire() + t.Wire();
    if IsIPv4(r) {
      assert r[12..16] == v[..4] && r[16..20] == v[4..];
    } else {
      assert r[8..24] == v[..16] && r[24..40] == v[16..];
    }
  }

  // ---- The rewrite ----

  /** The whole effect of rewriteIPPacket on the bytes d. */
  function RewriteResult(d: seq<byte>, source: AddrPort, destination: AddrPort): Result<seq<byte>, PacketError> {
    match Parse(d)
    case Err(e) => Err(e)
    case Ok(p) =>
      match EndpointPair(source, destination)
      case Err(e) => Err(e)
      case Ok((s, t)) =>
        if s.addr.V4? != IsIPv4(d) then Err(FamilyChange)
        else (ParsedIsRepairable(d); Ok(Rewritten(d, p.transportOffset, p.protocol, s, t)))
  }

  function Rewritten(d: seq<byte>, off: nat, protocol: Protocol, s: AddrPort, t: AddrPort): (r: seq<byte>)
    requires Repairable(d, off, protocol)
    requires Plain(s.addr) && Plain(t.addr) && s.addr.V4? == t.addr.V4? == IsIPv4(d)
  {
    EndpointsWritten(d, off, protocol, s, t);
    Repaired(WithEndpoints(d, off, s, t), off, protocol)
  }

  lemma ExtensionAligned(d: seq<byte>, next: byte, at: nat)
    requires Extension(d, next, at).Ok?
    ensures Extension(d, next, at).value % 4 == 0
  {
    hide Options6Error;
  }

  lemma {:induction false} Transport6Aligned(d: seq<byte>, next: byte, at: nat, seen: bool)
    requires at <= |d| && at % 4 == 0 && Transport6(d, next, at, seen).Ok?
    ensures Transport6(d, next, at, seen).value.0 % 4 == 0
    decreases |d| - at
  {
    hide Extension, AtomicFragment;
    if next == 0 || next == 43 || next == 60 {
      ExtensionAligned(d, next, at);
      var length := Extension(d, next, at).value;
      assert (at + length) % 4 == 0;
      Transport6Aligned(d, d[at], at + length, seen);
    } else if next == 44 {
      Transport6Aligned(d, d[at], at + 8, true);
    }
  }

  /** Every accepted packet can have its checksums repaired. */
  lemma ParsedIsRepairable(d: seq<byte>)
    requires Parse(d).Ok?
    ensures var p := Parse(d).value; Repairable(d, p.transportOffset, p.protocol) && !MappedOnWire(d)
  {
    hide OptionsError, Transport6;
    if !IsIPv4(d) {
      Transport6Aligned(d, d[6], 40, false);
    }
  }

  /** A successful rewrite parses as the same packet with the new endpoints, and
      verifies; no byte outside addresses, ports and checksums changes. */
  lemma RewriteParses(d: seq<byte>, source: AddrPort, destination: AddrPort)
    requires RewriteResult(d, source, destination).Ok?
    ensures var r := RewriteResult(d, source, destination).value;
            var p := Parse(d).value;
            var (s, t) := EndpointPair(source, destination).value;
            && d != []
            && AgreeButTouched(d, r, p.transportOffset, p.protocol)
            && Parse(r) == Ok(p.(bytes := r, source := s, destination := t))
            && Repairable(r, p.transportOffset, p.protocol)
            && ChecksumsValid(r, p.transportOffset, p.protocol)
  {
    hide Parse, OptionsError, WithEndpoints, Repaired, ChecksumsValid;
    ParsedIsRepairable(d);
    var p := Parse(d).value;
    var (s, t) := EndpointPair(source, destination).value;
    var off := p.transportOffset;
    EndpointsWritten(d, off, p.protocol, s, t);
    var w := WithEndpoints(d, off, s, t);
    RepairedVerifies(w, off, p.protocol);
    RepairedKeepsEndpoints(w, off, p.protocol);
    ParseFrame(d, Repaired(w, off, p.protocol));
  }

  lemma RepairedKeepsEndpoints(w: seq<byte>, off: nat, protocol: Protocol)
    requires Repairable(w, off, protocol)
    ensures var r := Repaired(w, off, protocol);
            && r[0] == w[0] && SourceAddr(r) == SourceAddr(w) && DestinationAddr(r) == DestinationAddr(w)
            && U16At(r, off) == U16At(w, off) && U16At(r, off + 2) == U16At(w, off + 2)
            && AgreeButChecksums(w, r, off, protocol)
  {
    var r := Repaired(w, off, protocol);
    forall i | 0 <= i < |w| && !InChecksum(w, off, protocol, i) ensures r[i] == w[i] {
      RepairedFrame(w, off, protocol, i);
    }
    hide Repaired;
    SameEndpoints(w, r, off, protocol);
  }

  /** Checksums are not part of the endpoints. */
  lemma SameEndpoints(w: seq<byte>, r: seq<byte>, off: nat, protocol: Protocol)
    requires Repairable(w, off, protocol) && AgreeButChecksums(w, r, off, protocol)
    ensures r[0] == w[0] && SourceAddr(r) == SourceAddr(w) && DestinationAddr(r) == DestinationAddr(w)
    ensures U16At(r, off) == U16At(w, off) && U16At(r, off + 2) == U16At(w, off + 2)
  {
    assert !InChecksum(w, off, protocol, 0);
    if IsIPv4(w) {
      assert r[12..16] == w[12..16] && r[16..20] == w[16..20];
    } else {
      assert r[8..24] == w[8..24] && r[24..40] == w[24..40];
    }
  }

  /** Rewriting back to the old endpoints gives the original packet with its
      checksums repaired. */
  lemma RewriteBack(d: seq<byte>, source: AddrPort, destination: AddrPort)
    requires RewriteResult(d, source, destination).Ok?
    ensures var p := Parse(d).value;
            && Repairable(d, p.transportOffset, p.protocol)
            && RewriteResult(RewriteResult(d, source, destination).value, p.source, p.destination)
               == Ok(Repaired(d, p.transportOffset, p.protocol))
  {
    hide OptionsError, WithEndpoints, Repaired, ChecksumsValid, Header, Touched, InChecksum;
    ParsedIsRepairable(d);
    RewriteParses(d, source, destination);
    var r := RewriteResult(d, source, destination).value;
    var p := Parse(d).value;
    var off := p.transportOffset;
    assert EndpointPair(p.source, p.destination) == Ok((p.source, p.destination));
    var w := WithEndpoints(r, off, p.source, p.destination);
    assert r[0] == d[0] by {
      AgreeAtZero(d, r, off, p.protocol);
    }
    WroteBack(d, r, off, p.protocol, p.source, p.destination);
    RepairForgetsChecksums(d, w, off, p.protocol);
  }

  lemma AgreeAtZero(d: seq<byte>, r: seq<byte>, off: nat, protocol: Protocol)
    requires d != [] && off >= 20 && AgreeButTouched(d, r, off, protocol)
    ensures r[0] == d[0]
  {
    assert !Touched(d, off, protocol, 0);
  }

  lemma WroteBack(d: seq<byte>, r: seq<byte>, off: nat, protocol: Protocol, s: AddrPort, t: AddrPort)
    requires d != [] && (if IsIPv4(d) then 20 else 40) <= off && off + 4 <= |d|
    requires Plain(s.addr) && Plain(t.addr) && s.addr.V4? == t.addr.V4? == IsIPv4(d)
    requires SourceAddr(d) == s.addr && DestinationAddr(d) == t.addr
    requires U16At(d, off) == s.port && U16At(d, off + 2) == t.port
    requires r != [] && r[0] == d[0] && AgreeButTouched(d, r, off, protocol)
    ensures AgreeButChecksums(d, WithEndpoints(r, off, s, t), off, protocol)
  {
    var w := WithEndpoints(r, off, s, t);
    assert WithEndpoints(d, off, s, t) == d by {
      Rewriting(d, off, s, t);
    }
    var a := if IsIPv4(d) then 12 else 8;
    var v := s.addr.Wire() + t.addr.Wire();
    var ports := U16(s.port) + U16(t.port);
    SpliceAgree(d, r, a, v);
    SpliceAgree(Splice(d, a, v), Splice(r, a, v), off, ports);
  }

  /** Writing the endpoints a packet already has changes nothing. */
  lemma Rewriting(d: seq<byte>, off: nat, s: AddrPort, t: AddrPort)
    requires d != [] && (if IsIPv4(d) then 20 else 40) <= off && off + 4 <= |d|
    requires Plain(s.addr) && Plain(t.addr) && s.addr.V4? == t.addr.V4? == IsIPv4(d)
    requires SourceAddr(d) == s.addr && DestinationAddr(d) == t.addr
    requires U16At(d, off) == s.port && U16At(d, off + 2) == t.port
    ensures WithEndpoints(d, off, s, t) == d
  {
    hide Splice, U16;
    var a := if IsIPv4(d) then 12 else 8;
    var v := s.addr.Wire() + t.addr.Wire();
    assert d[a..a + |v|] == v;
    SpliceSame(d, a, v);
    U16Encodes(d, off);
    U16Encodes(d, off + 2);
    assert d[off..off + 4] == d[off..off + 2] + d[off + 2..off + 4];
    SpliceSame(d, off, U16(s.port) + U16(t.port));
  }

  /** rewriteIPPacket: success writes exactly RewriteResult, failure writes nothing. */
  method RewriteIPPacket(data: array<byte>, source: AddrPort, destination: AddrPort) returns (error: Option<PacketError>)
    modifies data
    ensures match RewriteResult(old(data[..]), source, destination)
            case Ok(r) => error == None && data[..] == r
            case Err(e) => error == Some(e) && data[..] == old(data[..])
  {
    hide Repaired, ChecksumsValid, Header, Parse;
    ghost var d := data[..];
    var parsed := ParseIPPacket(data[..]);
    if parsed.Err? {
      return Some(parsed.error);
    }
    ParsedIsRepairable(d);
    var pair := EndpointPair(source, destination);
    if pair.Err? {
      return Some(pair.error);
    }
    var (s, t) := pair.value;
    if s.addr.V4? != (data[0] / 16 == 4) {
      return Some(FamilyChange);
    }
    var packet := parsed.value;
    WriteEndpoints(data, packet.transportOffset, s, t);
    EndpointsWritten(d, packet.transportOffset, packet.protocol, s, t);
    RepairPacketChecksums(data, packet.transportOffset, packet.protocol);
    return None;
  }

  method WriteEndpoints(data: array<byte>, off: nat, s: AddrPort, t: AddrPort)
    requires data.Length > 0 && (if IsIPv4(data[..]) then 20 else 40) <= off && off + 4 <= data.Length
    requires Plain(s.addr) && Plain(t.addr) && s.addr.V4? == t.addr.V4? == IsIPv4(data[..])
    modifies data
    ensures data[..] == WithEndpoints(old(data[..]), off, s, t)
  {
    hide Splice, U16;
    ghost var d := data[..];
    var a, n := if s.addr.V4? then 12 else 8, if s.addr.V4? then 4 else 16;
    Write(data, a, s.addr.Wire());
    Write(data, a + n, t.addr.Wire());
    SpliceAdjacent(d, a, s.addr.Wire(), t.addr.Wire());
    ghost var m := data[..];
    Write(data, off, U16(s.port));
    Write(data, off + 2, U16(t.port));
    SpliceAdjacent(m, off, U16(s.port), U16(t.port));
  }
}
