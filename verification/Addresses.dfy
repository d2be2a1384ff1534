/** Network addresses and flow keys, as the program's `netip` values. */
module Addresses {
  import opened Bytes

  type Bytes4 = s: seq<byte> | |s| == 4 witness [0, 0, 0, 0]
  type Bytes16 = s: seq<byte> | |s| == 16 witness [0, 0, 0, 0, 0, 0, 0, 0, 0, 0, 0, 0, 0, 0, 0, 0]

  /** NoAddr is the zero `netip.Addr`; an IPv6 address can carry a zone. */
  datatype Addr = NoAddr | V4(v4: Bytes4) | V6(v6: Bytes16, zone: string)
  {
    predicate Is4In6() {
      V6? && v6[..10] == Zeros(10) && v6[10] == 0xff && v6[11] == 0xff
    }

    function Unmap(): Addr {
      if Is4In6() then V4(v6[12..]) else this
    }

    predicate HasZone() {
      V6? && zone != ""
    }

    /** The address bytes in wire order. */
    function Wire(): seq<byte> {
      match this
      case NoAddr => []
      case V4(b) => b
      case V6(b, _) => b
    }
  }

  datatype AddrPort = AddrPort(addr: Addr, port: uint16)

  datatype Protocol = ProtoTCP | ProtoUDP | OtherProtocol(name: string)

  datatype FlowKey = FlowKey(protocol: Protocol, source: AddrPort, destination: AddrPort)

  datatype Option<+T> = None | Some(value: T)
  {
    function GetOr(default: T): T {
      if Some? then value else default
    }
  }

  datatype Result<+T, +E> = Ok(value: T) | Err(error: E)
}
