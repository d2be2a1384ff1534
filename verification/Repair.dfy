/** repairPacketChecksums: the IPv4 header checksum and the TCP/UDP checksum
    over the pseudo-header (RFC 791 section 3.1, RFC 8200 section 8.1). */
module Repair {
  import opened Bytes
  import opened Addresses
  import opened Checksum
  import opened Packet

  /** Bytes and transport offset as the parser and the constructor deliver them. */
  predicate Repairable(d: seq<byte>, off: nat, protocol: Protocol) {
    && d != [] && |d| <= 40 + 0xffff
    && off % 4 == 0
    && (if IsIPv4(d) then 20 else 40) <= off
    && off + (if protocol == ProtoUDP then 8 else 20) <= |d|
  }

  function ChecksumAt(protocol: Protocol): nat {
    if protocol == ProtoUDP then 6 else 16
  }

  function ProtocolByte(protocol: Protocol): byte {
    if protocol == ProtoUDP then 17 else 6
  }

  /** The pseudo-header for a transport part of n bytes. */
  function Pseudo(d: seq<byte>, n: nat, protocol: Protocol): (p: seq<byte>)
    requires d != [] && n < 0x1_0000_0000 && |d| >= if IsIPv4(d) then 20 else 40
    ensures |p| % 2 == 0 && |p| <= 40
  {
    if IsIPv4(d) then d[12..20] + [0, ProtocolByte(protocol)] + U16(n % 0x1_0000)
    else d[8..40] + U32(n) + [0, 0, 0, ProtocolByte(protocol)]
  }

  /** What the pseudo-header covers: both addresses as they stand on the wire, the
      protocol and the transport length, in the layout of RFC 9293 section 3.1 for
      IPv4 and of RFC 8200 section 8.1 for IPv6; and nothing else of the packet. */
  lemma PseudoFields(d: seq<byte>, n: nat, protocol: Protocol)
    requires d != [] && n <= 0xffff && |d| >= if IsIPv4(d) then 20 else 40
    ensures var p, s, t := Pseudo(d, n, protocol), SourceAddr(d).Wire(), DestinationAddr(d).Wire();
            && |s| == |t| == (if IsIPv4(d) then 4 else 16)
            && p == s + t + (if IsIPv4(d) then [0, ProtocolByte(protocol)] + U16(n)
                             else [0, 0] + U16(n) + [0, 0, 0, ProtocolByte(protocol)])
  {
    hide WordSum, U16, U32;
    U32Halves(0, n);
    U16Zero();
    if IsIPv4(d) {
      assert d[12..20] == d[12..16] + d[16..20];
    } else {
      assert d[8..40] == d[8..24] + d[24..40];
    }
  }

  /** So its sum is that of the addresses, the length and the protocol. */
  lemma PseudoSum(d: seq<byte>, n: nat, protocol: Protocol)
    requires d != [] && n <= 0xffff && |d| >= if IsIPv4(d) then 20 else 40
    ensures WordSum(Pseudo(d, n, protocol)) ==
            WordSum(SourceAddr(d).Wire()) + WordSum(DestinationAddr(d).Wire()) + n + ProtocolByte(protocol) as int
  {
    var s, t := SourceAddr(d).Wire(), DestinationAddr(d).Wire();
    var fields := if IsIPv4(d) then [0, ProtocolByte(protocol)] + U16(n) else [0, 0] + U16(n) + [0, 0, 0, ProtocolByte(protocol)];
    PseudoFields(d, n, protocol);
    FieldSum(n, ProtocolByte(protocol), IsIPv4(d));
    hide WordSum, Pseudo, U16, SourceAddr, DestinationAddr;
    assert s + t + fields == s + (t + fields);
    WordSumOfConcat(s, t + fields);
    WordSumOfConcat(t, fields);
  }

  lemma U16Zero()
    ensures U16(0) == [0, 0]
  {
  }

  /** Both layouts add up to the same: length plus protocol. */
  lemma FieldSum(n: uint16, protocol: byte, four: bool)
    ensures WordSum(if four then [0, protocol] + U16(n) else [0, 0] + U16(n) + [0, 0, 0, protocol]) == n + protocol as int
  {
    var a := [0 as byte, protocol];
    var length := U16(n);
    WordSumOfConcat(a, length);
    assert WordSum(a) == protocol as int && WordSum(length) == n;
    var z: seq<byte> := [0, 0];
    assert [0 as byte, 0, 0, protocol] == z + a;
    WordSumOfConcat(z, a);
    WordSumOfConcat(z + length, z + a);
    WordSumOfConcat(z, length);
    assert WordSum(z) == 0;
  }

  function HeaderRepaired(d: seq<byte>, off: nat): (r: seq<byte>)
    requires d != [] && (if IsIPv4(d) then 20 else 40) <= off <= |d|
    ensures |r| == |d|
    ensures forall i :: 0 <= i < |d| && !(IsIPv4(d) && 10 <= i < 12) ==> r[i] == d[i]
  {
    if IsIPv4(d) then Splice(d, 10, U16(CodeChecksum(Splice(d, 10, [0, 0])[..off]))) else d
  }

  /** UDP never writes zero: on the wire that means "no checksum". */
  function OnWire(sum: uint16, protocol: Protocol): uint16 {
    if protocol == ProtoUDP && sum == 0 then 0xffff else sum
  }

  function TransportChecksum(d: seq<byte>, off: nat, protocol: Protocol): uint16
    requires Repairable(d, off, protocol)
  {
    var zeroed := Splice(d[off..], ChecksumAt(protocol), [0, 0]);
    OnWire(CodeChecksum(Pseudo(d, |zeroed|, protocol) + zeroed), protocol)
  }

  function Repaired(d: seq<byte>, off: nat, protocol: Protocol): (r: seq<byte>)
    requires Repairable(d, off, protocol)
    ensures |r| == |d|
  {
    var h := HeaderRepaired(d, off);
    Splice(h, off + ChecksumAt(protocol), U16(TransportChecksum(h, off, protocol)))
  }

  /** The bytes a repair may change. */
  predicate InChecksum(d: seq<byte>, off: nat, protocol: Protocol, i: nat)
    requires d != []
  {
    (IsIPv4(d) && 10 <= i < 12) || off + ChecksumAt(protocol) <= i < off + ChecksumAt(protocol) + 2
  }

  lemma RepairedFrame(d: seq<byte>, off: nat, protocol: Protocol, i: nat)
    requires Repairable(d, off, protocol) && i < |d| && !InChecksum(d, off, protocol, i)
    ensures Repaired(d, off, protocol)[i] == d[i]
  {
  }

  /** d and e agree outside the transport checksum. */
  ghost predicate AgreeButTransport(d: seq<byte>, e: seq<byte>, off: nat, protocol: Protocol) {
    && |d| == |e|
    && forall i :: 0 <= i < |d| && !(off + ChecksumAt(protocol) <= i < off + ChecksumAt(protocol) + 2) ==> d[i] == e[i]
  }

  /** d and e agree outside every checksum. */
  ghost predicate AgreeButChecksums(d: seq<byte>, e: seq<byte>, off: nat, protocol: Protocol)
    requires d != []
  {
    |d| == |e| && forall i :: 0 <= i < |d| && !InChecksum(d, off, protocol, i) ==> d[i] == e[i]
  }

  lemma HeaderForgets(d: seq<byte>, e: seq<byte>, off: nat, protocol: Protocol)
    requires Repairable(d, off, protocol) && Repairable(e, off, protocol) && AgreeButChecksums(d, e, off, protocol)
    ensures AgreeButTransport(HeaderRepaired(d, off), HeaderRepaired(e, off), off, protocol)
  {
    hide CodeChecksum, ChecksumAt;
    assert !InChecksum(d, off, protocol, 0) && d[0] == e[0];
    if IsIPv4(d) {
      forall i | 0 <= i < off && !(10 <= i < 12) ensures d[i] == e[i] {
        assert !InChecksum(d, off, protocol, i);
      }
      SlotZeroed(d, e, off);
    }
  }

  lemma SlotZeroed(d: seq<byte>, e: seq<byte>, off: nat)
    requires |d| == |e| && 12 <= off <= |d|
    requires forall i :: 0 <= i < off && !(10 <= i < 12) ==> d[i] == e[i]
    ensures Splice(d, 10, [0, 0])[..off] == Splice(e, 10, [0, 0])[..off]
  {
    var g, h := Splice(d, 10, [0, 0]), Splice(e, 10, [0, 0]);
    forall i | 0 <= i < off ensures g[i] == h[i] {
    }
  }

  lemma TransportForgets(g: seq<byte>, h: seq<byte>, off: nat, protocol: Protocol)
    requires Repairable(g, off, protocol) && Repairable(h, off, protocol) && AgreeButTransport(g, h, off, protocol)
    ensures TransportChecksum(g, off, protocol) == TransportChecksum(h, off, protocol)
  {
    assert Splice(g[off..], ChecksumAt(protocol), [0, 0]) == Splice(h[off..], ChecksumAt(protocol), [0, 0]);
    assert g[0] == h[0];
    if IsIPv4(g) {
      assert g[12..20] == h[12..20];
    } else {
      assert g[8..40] == h[8..40];
    }
  }

  /** Two packets that differ only in checksum bytes repair to the same bytes. */
  lemma RepairForgetsChecksums(d: seq<byte>, e: seq<byte>, off: nat, protocol: Protocol)
    requires Repairable(d, off, protocol) && AgreeButChecksums(d, e, off, protocol)
    ensures Repairable(e, off, protocol)
    ensures Repaired(d, off, protocol) == Repaired(e, off, protocol)
  {
    assert d[0] == e[0];
    HeaderForgets(d, e, off, protocol);
    var g, h := HeaderRepaired(d, off), HeaderRepaired(e, off);
    TransportForgets(g, h, off, protocol);
    SpliceForgets(g, h, off + ChecksumAt(protocol), U16(TransportChecksum(g, off, protocol)));
  }

  /** Every checksum of the packet verifies: the covered words add up to 0xffff. */
  predicate ChecksumsValid(d: seq<byte>, off: nat, protocol: Protocol)
    requires Repairable(d, off, protocol)
  {
    && (IsIPv4(d) ==> OnesSum(d[..off]) == 0xffff)
    && OnesSum(Pseudo(d, |d| - off, protocol) + d[off..]) == 0xffff
  }

  /** Writing the word c into a zeroed slot adds c to the sum. */
  lemma WordSumOfSplice(s: seq<byte>, i: nat, c: uint16)
    requires i % 2 == 0 && i + 2 <= |s|
    ensures WordSum(Splice(s, i, U16(c))) == WordSum(Splice(s, i, [0, 0])) + c
  {
    WordSumAround(s[..i], U16(c), s[i + 2..]);
    WordSumAround(s[..i], [0, 0], s[i + 2..]);
  }

  /** A string with its own checksum in place verifies, whether a zero checksum
      is written as zero or as 0xffff. */
  lemma ChecksummedVerifies(s: seq<byte>, i: nat, protocol: Protocol)
    requires i % 2 == 0 && i + 2 <= |s| <= 0x2_0000
    ensures OnesSum(Splice(s, i, U16(OnWire(CodeChecksum(Splice(s, i, [0, 0])), protocol)))) == 0xffff
  {
    var zeroed := Splice(s, i, [0, 0]);
    var sum := WordSum(zeroed);
    AccumulatorFits(zeroed);
    NoWrapIsRfc1071(zeroed);
    FoldOfWordSum(zeroed);
    var c := OnWire(CodeChecksum(zeroed), protocol);
    WordSumOfSplice(s, i, c);
    FoldOfWordSum(Splice(s, i, U16(c)));
    ComplementFolds(sum);
    if c != CodeChecksum(zeroed) {
      AddOnesFolds(sum);
    }
  }

  lemma HeaderVerifies(d: seq<byte>, off: nat, protocol: Protocol)
    requires Repairable(d, off, protocol) && IsIPv4(d)
    ensures OnesSum(Repaired(d, off, protocol)[..off]) == 0xffff
  {
    hide WordSum, OnesSum, Fold, CodeChecksum, Splice, TransportChecksum, Pseudo;
    var s, h := d[..off], HeaderRepaired(d, off);
    SplicePrefix(d, off, 10, [0, 0]);
    var c := U16(CodeChecksum(Splice(s, 10, [0, 0])));
    SplicePrefix(d, off, 10, c);
    SpliceBehind(h, off, off + ChecksumAt(protocol), U16(TransportChecksum(h, off, protocol)));
    ChecksummedVerifies(s, 10, ProtoTCP);
  }

  /** The last write of the repair, on a header that is already repaired. */
  lemma TransportVerifies(h: seq<byte>, off: nat, protocol: Protocol)
    requires Repairable(h, off, protocol)
    ensures var c := U16(TransportChecksum(h, off, protocol));
            OnesSum(Pseudo(h, |h| - off, protocol) + Splice(h[off..], ChecksumAt(protocol), c)) == 0xffff
  {
    hide WordSum, OnesSum, Fold, CodeChecksum, Splice;
    var k, b := ChecksumAt(protocol), h[off..];
    var pseudo := Pseudo(h, |h| - off, protocol);
    SpliceOfConcat(pseudo, b, k, [0, 0]);
    ChecksummedVerifies(pseudo + b, |pseudo| + k, protocol);
    SpliceOfConcat(pseudo, b, k, U16(TransportChecksum(h, off, protocol)));
  }

  /** Writing a checksum leaves the pseudo-header alone. */
  lemma WrittenParts(h: seq<byte>, off: nat, protocol: Protocol, c: uint16)
    requires Repairable(h, off, protocol)
    ensures var r := Splice(h, off + ChecksumAt(protocol), U16(c));
            && Repairable(r, off, protocol) && r[0] == h[0]
            && Pseudo(r, |r| - off, protocol) == Pseudo(h, |h| - off, protocol)
            && r[off..] == Splice(h[off..], ChecksumAt(protocol), U16(c))
            && U16At(r, off + ChecksumAt(protocol)) == c
  {
    var r := Splice(h, off + ChecksumAt(protocol), U16(c));
    assert r[0] == h[0];
    if IsIPv4(h) {
      assert r[12..20] == h[12..20];
    } else {
      assert r[8..40] == h[8..40];
    }
    SpliceSuffix(h, off, ChecksumAt(protocol), U16(c));
  }

  /** After a repair everything verifies, and no UDP checksum is written as zero. */
  lemma RepairedVerifies(d: seq<byte>, off: nat, protocol: Protocol)
    requires Repairable(d, off, protocol)
    ensures var r := Repaired(d, off, protocol);
            Repairable(r, off, protocol) && ChecksumsValid(r, off, protocol)
    ensures protocol == ProtoUDP ==> U16At(Repaired(d, off, protocol), off + 6) != 0
  {
    hide WordSum, OnesSum, Fold, CodeChecksum, Splice, Pseudo, HeaderRepaired;
    if IsIPv4(d) {
      HeaderVerifies(d, off, protocol);
    }
    var h := HeaderRepaired(d, off);
    TransportVerifies(h, off, protocol);
    WrittenParts(h, off, protocol, TransportChecksum(h, off, protocol));
  }

  /** repairPacketChecksums, first half: the IPv4 header checksum. */
  method RepairHeader(data: array<byte>, offset: nat)
    requires data.Length > 0 && (if IsIPv4(data[..]) then 20 else 40) <= offset <= data.Length
    modifies data
    ensures data[..] == HeaderRepaired(old(data[..]), offset)
  {
    if data[0] / 16 == 4 {
      Write(data, 10, [0, 0]);
      assert Concat([data[..offset]]) == data[..offset];
      var sum := PacketChecksum([data[..offset]]);
      Write(data, 10, U16(sum));
      assert data[..] == HeaderRepaired(old(data[..]), offset);
    }
  }

  /** packet.go:375-386: a 40-byte buffer, of which `length` bytes are the
      pseudo-header for a transport part of n bytes. */
  method MakePseudo(data: array<byte>, n: nat, protocol: Protocol) returns (buffer: array<byte>, length: nat)
    requires data.Length > 0 && n < 0x1_0000_0000 && data.Length >= if IsIPv4(data[..]) then 20 else 40
    ensures fresh(buffer) && buffer.Length == 40 && length == (if IsIPv4(data[..]) then 12 else 40)
    ensures buffer[..length] == Pseudo(data[..], n, protocol)
  {
    hide WordSum, U16, U32, Splice;
    ghost var d := data[..];
    buffer := new byte[40](i => 0);
    assert buffer[..] == Zeros(40);
    length := 40;
    if data[0] / 16 == 4 {
      Write(buffer, 0, data[12..20]);
      buffer[9] := ProtocolByte(protocol);
      Write(buffer, 10, U16(n % 0x1_0000));
      length := 12;
      Laid4(d[12..20], ProtocolByte(protocol), U16(n % 0x1_0000));
    } else {
      Write(buffer, 0, data[8..40]);
      Write(buffer, 32, U32(n));
      buffer[39] := ProtocolByte(protocol);
      Laid6(d[8..40], U32(n), ProtocolByte(protocol));
    }
  }

  lemma Laid4(addresses: seq<byte>, protocol: byte, length: seq<byte>)
    requires |addresses| == 8 && |length| == 2
    ensures Splice(Splice(Zeros(40), 0, addresses)[9 := protocol], 10, length)[..12] == addresses + [0, protocol] + length
  {
  }

  lemma Laid6(addresses: seq<byte>, length: seq<byte>, protocol: byte)
    requires |addresses| == 32 && |length| == 4
    ensures Splice(Splice(Zeros(40), 0, addresses), 32, length)[39 := protocol][..40] == addresses + length + [0, 0, 0, protocol]
  {
    SpliceWindow(Zeros(40), 0, addresses);
    var a := Splice(Zeros(40), 0, addresses);
    SpliceWindow(a, 32, length);
    SpliceBehind(a, 32, 32, length);
    var b := Splice(a, 32, length);
    assert b[36..] == Zeros(40)[36..] by { assert a[36..] == Zeros(40)[36..]; }
    hide Splice;
    assert a[..32] == addresses && b == addresses + length + b[36..];
    assert b[36..] == [0, 0, 0, 0];
  }

  /** repairPacketChecksums, second half: the TCP or UDP checksum. */
  method RepairTransport(data: array<byte>, offset: nat, protocol: Protocol)
    requires Repairable(data[..], offset, protocol)
    modifies data
    ensures data[..] == Splice(old(data[..]), offset + ChecksumAt(protocol),
                               U16(TransportChecksum(old(data[..]), offset, protocol)))
  {
    hide WordSum, OnesSum, Fold, CodeChecksum, Splice, Pseudo;
    ghost var h := data[..];
    var at := ChecksumAt(protocol);
    Write(data, offset + at, [0, 0]);
    WrittenParts(h, offset, protocol, 0);
    var transport := data[offset..];
    var pseudo, length := MakePseudo(data, |transport|, protocol);
    ConcatPair(pseudo[..length], transport);
    var checksum := PacketChecksum([pseudo[..length], transport]);
    if protocol == ProtoUDP && checksum == 0 {
      checksum := 0xffff; // zero on the wire means "no checksum"
    }
    Write(data, offset + at, U16(checksum));
    SpliceTwice(h, offset + at, [0, 0], U16(checksum));
  }

  /** repairPacketChecksums on the packet's own bytes. */
  method RepairPacketChecksums(data: array<byte>, offset: nat, protocol: Protocol)
    requires Repairable(data[..], offset, protocol)
    modifies data
    ensures data[..] == Repaired(old(data[..]), offset, protocol)
    ensures Repairable(data[..], offset, protocol) && ChecksumsValid(data[..], offset, protocol)
  {
    hide WordSum, OnesSum, Fold, HeaderRepaired, CodeChecksum, Splice, Pseudo, TransportChecksum, ChecksumsValid;
    RepairHeader(data, offset);
    RepairTransport(data, offset, protocol);
    RepairedVerifies(old(data[..]), offset, protocol);
  }
}
