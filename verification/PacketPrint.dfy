/** What parseIPPacket accepts, written from the formats' side: packets as values with a
    printer (RFC 791 section 3.1, RFC 8200 sections 3 and 4, RFC 9293 section 3.1,
    RFC 768), independent of the parser. */
module PacketPrint {
  import opened Bytes
  import opened Addresses
  import opened Packet

  // ---- Options ----

  predicate AllLegal(list: seq<IpOption>, ipv4: bool) {
    forall i :: 0 <= i < |list| ==> list[i].Legal(ipv4)
  }

  function Printed(options: seq<IpOption>, ipv4: bool): seq<byte>
    requires AllLegal(options, ipv4)
  {
    if options == [] then [] else options[0].Print() + Printed(options[1..], ipv4)
  }

  /** An options field: legal options, then End-of-options with anything, or nothing. */
  datatype Options = Options(list: seq<IpOption>, padding: seq<byte>)
  {
    predicate Legal(ipv4: bool) {
      && AllLegal(list, ipv4)
      && (padding != [] ==> padding[0] == 0)
      && |Print(ipv4)| % 4 == 0 && |Print(ipv4)| <= 40
    }

    function Print(ipv4: bool): seq<byte>
      requires AllLegal(list, ipv4)
    {
      Printed(list, ipv4) + padding
    }
  }

  lemma {:induction false} PrintedSpells(list: seq<IpOption>, padding: seq<byte>, ipv4: bool)
    requires AllLegal(list, ipv4) && (padding != [] ==> padding[0] == 0)
    ensures Spells(list, padding, Printed(list, ipv4) + padding, ipv4)
  {
    if list == [] {
      assert Printed(list, ipv4) + padding == padding;
    } else {
      PrintedSpells(list[1..], padding, ipv4);
      hide Spells;
      var p := list[0].Print();
      Joined(p, Printed(list[1..], ipv4), padding);
      SpellsMore(list, padding, p, Printed(list[1..], ipv4) + padding, ipv4);
      hide Printed;
    }
  }

  lemma SpellsMore(list: seq<IpOption>, padding: seq<byte>, p: seq<byte>, rest: seq<byte>, ipv4: bool)
    requires list != [] && list[0].Legal(ipv4) && p == list[0].Print() && Spells(list[1..], padding, rest, ipv4)
    ensures Spells(list, padding, p + rest, ipv4)
  {
    assert (p + rest)[|p|..] == rest;
  }

  lemma {:induction false} SpellsPrinted(list: seq<IpOption>, padding: seq<byte>, o: seq<byte>, ipv4: bool)
    requires Spells(list, padding, o, ipv4)
    ensures AllLegal(list, ipv4) && (padding != [] ==> padding[0] == 0) && o == Printed(list, ipv4) + padding
  {
    if list != [] {
      var p := list[0].Print();
      SpellsPrinted(list[1..], padding, o[|p|..], ipv4);
      hide Spells;
      PrefixOf(p, o);
      Joined(p, Printed(list[1..], ipv4), padding);
      hide Printed;
    }
  }

  lemma PrefixOf(p: seq<byte>, o: seq<byte>)
    requires p <= o
    ensures o == p + o[|p|..]
  {
  }

  lemma Joined(a: seq<byte>, b: seq<byte>, c: seq<byte>)
    ensures a + b + c == a + (b + c)
  {
  }

  lemma OptionsAccepted(o: Options, ipv4: bool)
    requires o.Legal(ipv4)
    ensures OptionsError(o.Print(ipv4), ipv4) == None && |o.Print(ipv4)| % 4 == 0 && |o.Print(ipv4)| <= 40
  {
    PrintedSpells(o.list, o.padding, ipv4);
    SpelledIsAccepted(o.list, o.padding, o.Print(ipv4), ipv4);
  }

  lemma OptionsSpelled(d: seq<byte>, ipv4: bool) returns (o: Options)
    requires OptionsError(d, ipv4) == None && |d| % 4 == 0 && |d| <= 40
    ensures o.Legal(ipv4) && o.Print(ipv4) == d
  {
    var list, padding := SpellAccepted(d, ipv4);
    SpellsPrinted(list, padding, d, ipv4);
    o := Options(list, padding);
  }

  // ---- The transport part ----

  datatype Segment =
    | Tcp(source: uint16, destination: uint16, sequence: uint32, ack: uint32, reserved: byte, flags: byte,
          window: uint16, checksum: uint16, urgent: uint16, options: Options, payload: seq<byte>)
    | Udp(source: uint16, destination: uint16, checksum: uint16, payload: seq<byte>)
  {
    predicate Legal() {
      match this
      case Tcp(_, _, _, _, reserved, _, _, _, _, options, _) => reserved < 16 && options.Legal(false)
      case Udp(_, _, _, payload) => |payload| <= 65507
    }

    function Number(): byte {
      if Tcp? then 6 else 17
    }

    function Print(): seq<byte>
      requires Legal()
    {
      match this
      case Tcp(source, destination, sequence, ack, reserved, flags, window, checksum, urgent, options, payload) =>
        U16(source) + U16(destination) + U32(sequence) + U32(ack)
        + [((20 + |options.Print(false)|) / 4) * 16 + reserved, flags] + U16(window) + U16(checksum) + U16(urgent)
        + options.Print(false) + payload
      case Udp(source, destination, checksum, payload) =>
        U16(source) + U16(destination) + U16(|payload| + 8) + U16(checksum) + payload
    }
  }

  /** The first twenty bytes of a TCP header. */
  lemma TcpFixed(a: uint16, b: uint16, c: uint32, e: uint32, x: byte, flags: byte, w: uint16, k: uint16, u: uint16, rest: seq<byte>)
    ensures var t := U16(a) + U16(b) + U32(c) + U32(e) + [x, flags] + U16(w) + U16(k) + U16(u) + rest;
            && |t| == 20 + |rest| && t[20..] == rest && t[12] == x && t[13] == flags
            && U16At(t, 0) == a && U16At(t, 2) == b && U32At(t, 4) == c && U32At(t, 8) == e
  {
    hide U16, U32;
    var t := U16(a) + U16(b) + U32(c) + U32(e) + [x, flags] + U16(w) + U16(k) + U16(u) + rest;
    assert t[0..2] == U16(a) && t[2..4] == U16(b) && t[4..8] == U32(c) && t[8..12] == U32(e);
    Read16(t, 0);
    Read16(t, 2);
    Read32(t, 4);
    Read32(t, 8);
  }

  lemma Read16(t: seq<byte>, i: nat)
    requires i + 2 <= |t|
    ensures U16At(t, i) == U16At(t[i..i + 2], 0)
  {
  }

  lemma Read32(t: seq<byte>, i: nat)
    requires i + 4 <= |t|
    ensures U32At(t, i) == U32At(t[i..i + 4], 0)
  {
  }

  lemma TcpReads(s: Segment)
    requires s.Tcp? && s.Legal()
    ensures var t := s.Print();
            && TcpError(t) == None && t[t[12] / 16 * 4..] == s.payload
            && U16At(t, 0) == s.source && U16At(t, 2) == s.destination && t[13] == s.flags
            && U32At(t, 4) == s.sequence && U32At(t, 8) == s.ack
  {
    hide OptionsError, U16, U32, U16At, U32At, Printed;
    OptionsAccepted(s.options, false);
    var o := s.options.Print(false);
    var x: byte := ((20 + |o|) / 4) * 16 + s.reserved;
    var t := s.Print();
    TcpFixed(s.source, s.destination, s.sequence, s.ack, x, s.flags, s.window, s.checksum, s.urgent, o + s.payload);
    assert t == U16(s.source) + U16(s.destination) + U32(s.sequence) + U32(s.ack) + [x, s.flags]
                + U16(s.window) + U16(s.checksum) + U16(s.urgent) + (o + s.payload);
    assert x / 16 * 4 == 20 + |o|;
    assert t[20..20 + |o|] == (o + s.payload)[..|o|] == o;
    assert t[20 + |o|..] == (o + s.payload)[|o|..] == s.payload;
  }

  lemma UdpReads(s: Segment)
    requires s.Udp? && s.Legal()
    ensures var t := s.Print();
            UdpError(t) == None && t[8..] == s.payload && U16At(t, 0) == s.source && U16At(t, 2) == s.destination
  {
    hide U16;
    var t := s.Print();
    assert t[0..2] == U16(s.source) && t[2..4] == U16(s.destination) && t[4..6] == U16(|s.payload| + 8);
    Read16(t, 0);
    Read16(t, 2);
    Read16(t, 4);
  }

  /** Every accepted transport part is the print of a segment. */
  lemma TcpSpelled(t: seq<byte>) returns (s: Segment)
    requires TcpError(t) == None
    ensures s.Tcp? && s.Legal() && s.Print() == t
  {
    hide OptionsError, U16, U32, U16At, U32At, Printed;
    var n := t[12] / 16 * 4;
    var options := OptionsSpelled(t[20..n], false);
    s := Tcp(U16At(t, 0), U16At(t, 2), U32At(t, 4), U32At(t, 8), t[12] % 16, t[13], U16At(t, 14), U16At(t, 16), U16At(t, 18), options, t[n..]);
    assert ((20 + |t[20..n]|) / 4) * 16 + t[12] % 16 == t[12] as int;
    Split20(t);
    assert t == t[..20] + t[20..n] + t[n..];
  }

  lemma Split20(t: seq<byte>)
    requires |t| >= 20
    ensures t[..20] == U16(U16At(t, 0)) + U16(U16At(t, 2)) + U32(U32At(t, 4)) + U32(U32At(t, 8)) + [t[12], t[13]]
                       + U16(U16At(t, 14)) + U16(U16At(t, 16)) + U16(U16At(t, 18))
  {
    hide U16, U32, U16At, U32At;
    U16Encodes(t, 0);
    U16Encodes(t, 2);
    U32Encodes(t, 4);
    U32Encodes(t, 8);
    U16Encodes(t, 14);
    U16Encodes(t, 16);
    U16Encodes(t, 18);
    assert t[..12] == t[0..2] + t[2..4] + t[4..8] + t[8..12];
    assert t[14..20] == t[14..16] + t[16..18] + t[18..20];
    assert t[..20] == t[..12] + [t[12], t[13]] + t[14..20];
  }

  lemma UdpSpelled(t: seq<byte>) returns (s: Segment)
    requires UdpError(t) == None
    ensures s.Udp? && s.Legal() && s.Print() == t
  {
    hide U16, U16At;
    s := Udp(U16At(t, 0), U16At(t, 2), U16At(t, 6), t[8..]);
    U16Encodes(t, 0);
    U16Encodes(t, 2);
    U16Encodes(t, 4);
    U16Encodes(t, 6);
    assert t == t[0..2] + t[2..4] + t[4..6] + t[6..8] + t[8..];
  }

  // ---- IPv6 extension headers ----

  datatype Option6 = Pad1 | Data6(kind: byte, data: seq<byte>)
  {
    predicate Legal() {
      Data6? ==> kind != 0 && kind != 0xc2 && kind != 0xc9 && |data| <= 255
    }

    function Print(): seq<byte>
      requires Legal()
    {
      if Pad1? then [0] else [kind, |data|] + data
    }
  }

  predicate AllLegal6(list: seq<Option6>) {
    forall i :: 0 <= i < |list| ==> list[i].Legal()
  }

  function Printed6(list: seq<Option6>): seq<byte>
    requires AllLegal6(list)
  {
    if list == [] then [] else list[0].Print() + Printed6(list[1..])
  }

  lemma {:induction false} Options6Accepted(list: seq<Option6>)
    requires AllLegal6(list)
    ensures Options6Error(Printed6(list)) == None
  {
    if list != [] {
      Options6Accepted(list[1..]);
      var p, rest := list[0].Print(), Printed6(list[1..]);
      assert (p + rest)[|p|..] == rest;
    }
  }

  lemma {:induction false} Options6Spelled(o: seq<byte>) returns (list: seq<Option6>)
    requires Options6Error(o) == None
    ensures AllLegal6(list) && Printed6(list) == o
  {
    if o == [] {
      return [];
    }
    var first := if o[0] == 0 then Pad1 else Data6(o[0], o[2..o[1] + 2]);
    assert o == first.Print() + o[|first.Print()|..];
    var rest := Options6Spelled(o[|first.Print()|..]);
    list := [first] + rest;
    assert list[1..] == rest;
  }

  /** Extension headers: Hop-by-Hop or Destination Options, Routing with no segment left,
      and a Fragment header of a whole packet. */
  datatype Ext = OptionsHeader(kind: byte, list: seq<Option6>) | Routing(kindOfRouting: byte, data: seq<byte>) | Whole(id: Bytes4)
  {
    predicate Legal() {
      match this
      case OptionsHeader(kind, list) =>
        (kind == 0 || kind == 60) && AllLegal6(list) && |Printed6(list)| % 8 == 6 && |Printed6(list)| <= 2046
      case Routing(_, data) => |data| % 8 == 4 && |data| <= 2044
      case Whole(_) => true
    }

    function Number(): byte {
      match this
      case OptionsHeader(kind, _) => kind
      case Routing(_, _) => 43
      case Whole(_) => 44
    }

    /** The header with the number of the one behind it. */
    function Print(next: byte): (p: seq<byte>)
      requires Legal()
      ensures |p| >= 8 && p[0] == next
    {
      match this
      case OptionsHeader(_, list) => [next, (|Printed6(list)| + 2) / 8 - 1] + Printed6(list)
      case Routing(kind, data) => [next, (|data| + 4) / 8 - 1, kind, 0] + data
      case Whole(id) => [next, 0, 0, 0] + id
    }
  }

  /** Hop-by-Hop Options come first only, and there is one Fragment header at most. */
  predicate LegalList(exts: seq<Ext>, first: bool, fragment: bool) {
    exts == [] ||
    (&& exts[0].Legal()
     && (exts[0].OptionsHeader? && exts[0].kind == 0 ==> first)
     && (exts[0].Whole? ==> !fragment)
     && LegalList(exts[1..], false, fragment || exts[0].Whole?))
  }

  function FirstNumber(exts: seq<Ext>, last: byte): byte {
    if exts == [] then last else exts[0].Number()
  }

  function PrintedList(exts: seq<Ext>, first: bool, fragment: bool, last: byte): seq<byte>
    requires LegalList(exts, first, fragment)
  {
    if exts == [] then []
    else exts[0].Print(FirstNumber(exts[1..], last)) + PrintedList(exts[1..], false, fragment || exts[0].Whole?, last)
  }

  /** s stands in d at `at`. */
  ghost predicate Here(d: seq<byte>, at: nat, s: seq<byte>) {
    at + |s| <= |d| && d[at..at + |s|] == s
  }

  lemma HereSplit(d: seq<byte>, at: nat, whole: seq<byte>, p: seq<byte>, q: seq<byte>)
    requires Here(d, at, whole) && whole == p + q
    ensures |whole| == |p| + |q| && Here(d, at, p) && Here(d, at + |p|, q)
  {
    assert d[at..at + |p|] == d[at..at + |whole|][..|p|] == p;
    assert d[at + |p|..at + |p| + |q|] == d[at..at + |whole|][|p|..] == q;
  }

  lemma ExtRead(d: seq<byte>, at: nat, e: Ext, next: byte)
    requires e.Legal() && !e.Whole? && Here(d, at, e.Print(next))
    requires e.OptionsHeader? && e.kind == 0 ==> at == 40
    ensures Extension(d, e.Number(), at) == Ok(|e.Print(next)|) && d[at] == next
    ensures e.Number() == 0 || e.Number() == 43 || e.Number() == 60
  {
    if e.Routing? {
      RoutingRead(d, at, e, next);
    } else {
      OptionsHeaderRead(d, at, e, next);
    }
    hide Extension, Ext.Print;
  }

  lemma Eighths(n: nat)
    requires n % 8 == 0 && n >= 8
    ensures (n / 8 - 1 + 1) * 8 == n
  {
  }

  lemma RoutingRead(d: seq<byte>, at: nat, e: Ext, next: byte)
    requires e.Routing? && e.Legal() && Here(d, at, e.Print(next))
    ensures Extension(d, 43, at) == Ok(|e.Print(next)|) && d[at] == next
  {
    hide Options6Error;
    var p := e.Print(next);
    Eighths(|e.data| + 4);
    Same(d, at, p, 0);
    Same(d, at, p, 1);
    Same(d, at, p, 3);
  }

  lemma OptionsHeaderRead(d: seq<byte>, at: nat, e: Ext, next: byte)
    requires e.OptionsHeader? && e.Legal() && Here(d, at, e.Print(next))
    requires e.kind == 0 ==> at == 40
    ensures Extension(d, e.kind, at) == Ok(|e.Print(next)|) && d[at] == next
  {
    hide Options6Error, Printed6, AllLegal6, Extension;
    Options6Accepted(e.list);
    var p, body := e.Print(next), Printed6(e.list);
    Eighths(|body| + 2);
    Same(d, at, p, 0);
    Same(d, at, p, 1);
    Tail2(d, at, p, body);
    ExtensionIs(d, e.kind, at, |p|);
  }

  lemma Tail2(d: seq<byte>, at: nat, p: seq<byte>, body: seq<byte>)
    requires |p| == 2 + |body| && p[2..] == body && at + |p| <= |d| && d[at..at + |p|] == p
    ensures d[at + 2..at + |p|] == body
  {
    assert d[at + 2..at + |p|] == d[at..at + |p|][2..];
  }

  lemma ExtensionIs(d: seq<byte>, number: byte, at: nat, n: nat)
    requires n >= 8 && at + n <= |d| && n == (d[at + 1] as int + 1) * 8 && number != 43 && (number == 0 ==> at == 40)
    requires Options6Error(d[at + 2..at + n]) == None
    ensures Extension(d, number, at) == Ok(n)
  {
    hide Options6Error;
  }

  lemma Same(d: seq<byte>, at: nat, p: seq<byte>, i: nat)
    requires at + |p| <= |d| && d[at..at + |p|] == p && i < |p|
    ensures d[at + i] == p[i]
  {
  }

  lemma WholeRead(d: seq<byte>, at: nat, e: Ext, next: byte)
    requires e.Whole? && Here(d, at, e.Print(next))
    ensures AtomicFragment(d, at, false) == None && d[at] == next && |e.Print(next)| == 8
  {
    var p := e.Print(next);
    Same(d, at, p, 0);
    Same(d, at, p, 1);
    Same(d, at, p, 2);
    Same(d, at, p, 3);
  }

  lemma StepExt(d: seq<byte>, number: byte, at: nat, fragment: bool, n: nat)
    requires at <= |d| && (number == 0 || number == 43 || number == 60) && Extension(d, number, at) == Ok(n)
    ensures at + n <= |d| && Transport6(d, number, at, fragment) == Transport6(d, d[at], at + n, fragment)
  {
    hide Extension, AtomicFragment;
  }

  lemma StepWhole(d: seq<byte>, at: nat)
    requires at <= |d| && AtomicFragment(d, at, false) == None
    ensures at + 8 <= |d| && Transport6(d, 44, at, false) == Transport6(d, d[at], at + 8, true)
  {
    hide Extension, AtomicFragment;
  }

  lemma StepLast(d: seq<byte>, last: byte, at: nat, fragment: bool)
    requires at <= |d| && (last == 6 || last == 17)
    ensures Transport6(d, last, at, fragment) == Ok((at, last))
  {
  }

  lemma PrintedCons(exts: seq<Ext>, first: bool, fragment: bool, last: byte)
    requires LegalList(exts, first, fragment) && exts != []
    ensures var e := exts[0];
            && e.Legal() && (e.OptionsHeader? && e.kind == 0 ==> first) && (e.Whole? ==> !fragment)
            && LegalList(exts[1..], false, fragment || e.Whole?)
            && PrintedList(exts, first, fragment, last)
               == e.Print(FirstNumber(exts[1..], last)) + PrintedList(exts[1..], false, fragment || e.Whole?, last)
  {
  }

  lemma ListCons(e: Ext, rest: seq<Ext>, first: bool, fragment: bool, last: byte)
    requires e.Legal() && (e.OptionsHeader? && e.kind == 0 ==> first) && (e.Whole? ==> !fragment)
    requires LegalList(rest, false, fragment || e.Whole?)
    ensures LegalList([e] + rest, first, fragment) && FirstNumber([e] + rest, last) == e.Number()
    ensures PrintedList([e] + rest, first, fragment, last)
            == e.Print(FirstNumber(rest, last)) + PrintedList(rest, false, fragment || e.Whole?, last)
  {
    assert ([e] + rest)[1..] == rest;
  }

  lemma FrontReads(d: seq<byte>, at: nat, e: Ext, next: byte, fragment: bool, whole: seq<byte>, printed: seq<byte>)
    requires e.Legal() && (e.OptionsHeader? && e.kind == 0 ==> at == 40) && (e.Whole? ==> !fragment)
    requires Here(d, at, whole) && whole == e.Print(next) + printed
    ensures var n := |e.Print(next)|;
            && at + n <= |d| && Here(d, at + n, printed) && |whole| == n + |printed|
            && Transport6(d, e.Number(), at, fragment) == Transport6(d, next, at + n, fragment || e.Whole?)
  {
    hide Extension, AtomicFragment, Transport6, Ext.Print, Ext.Legal;
    var p := e.Print(next);
    HereSplit(d, at, whole, p, printed);
    if e.Whole? {
      WholeRead(d, at, e, next);
      StepWhole(d, at);
    } else {
      ExtRead(d, at, e, next);
      StepExt(d, e.Number(), at, fragment, |p|);
    }
  }

  lemma {:induction false} WalkReads(d: seq<byte>, at: nat, first: bool, exts: seq<Ext>, fragment: bool, last: byte)
    requires (first ==> at == 40) && at <= |d| && LegalList(exts, first, fragment) && (last == 6 || last == 17)
    requires Here(d, at, PrintedList(exts, first, fragment, last))
    ensures Transport6(d, FirstNumber(exts, last), at, fragment) == Ok((at + |PrintedList(exts, first, fragment, last)|, last))
    decreases |exts|
  {
    hide Transport6, Here;
    if exts == [] {
      StepLast(d, last, at, fragment);
    } else {
      PrintedCons(exts, first, fragment, last);
      hide PrintedList, LegalList;
      var e, next, more := exts[0], FirstNumber(exts[1..], last), fragment || exts[0].Whole?;
      FrontReads(d, at, e, next, fragment, PrintedList(exts, first, fragment, last), PrintedList(exts[1..], false, more, last));
      WalkReads(d, at + |e.Print(next)|, false, exts[1..], more, last);
    }
  }

  lemma ExtSpelled(d: seq<byte>, number: byte, at: nat) returns (e: Ext)
    requires (number == 0 || number == 43 || number == 60) && Extension(d, number, at).Ok?
    ensures e.Legal() && !e.Whole? && e.Number() == number && e.Print(d[at]) == d[at..at + Extension(d, number, at).value]
    ensures e.OptionsHeader? && e.kind == 0 ==> at == 40
  {
    var n := Extension(d, number, at).value;
    ExtensionLength(d, number, at);
    if number == 43 {
      e := RoutingSpelled(d, at, n);
    } else {
      e := OptionsHeaderSpelled(d, number, at, n);
    }
    hide Extension;
  }

  lemma ExtensionLength(d: seq<byte>, number: byte, at: nat)
    requires Extension(d, number, at).Ok?
    ensures var n := Extension(d, number, at).value;
            && at + n <= |d| && n >= 8 && n == (d[at + 1] as int + 1) * 8
            && (number == 0 ==> at == 40)
            && (if number == 43 then d[at + 3] == 0 else Options6Error(d[at + 2..at + n]) == None)
  {
    hide Options6Error;
  }

  lemma RoutingSpelled(d: seq<byte>, at: nat, n: nat) returns (e: Ext)
    requires at + n <= |d| && n >= 8 && n == (d[at + 1] as int + 1) * 8 && d[at + 3] == 0
    ensures e.Routing? && e.Legal() && e.Print(d[at]) == d[at..at + n]
  {
    e := Routing(d[at + 2], d[at + 4..at + n]);
    assert d[at..at + n] == [d[at], d[at + 1], d[at + 2], d[at + 3]] + d[at + 4..at + n];
  }

  lemma InEights(n: nat, k: byte)
    requires n == (k as int + 1) * 8
    ensures n % 8 == 0 && (n - 2) % 8 == 6 && n / 8 - 1 == k as int && n <= 2048
  {
  }

  lemma OptionsHeaderSpelled(d: seq<byte>, number: byte, at: nat, n: nat) returns (e: Ext)
    requires at + n <= |d| && n >= 8 && n == (d[at + 1] as int + 1) * 8 && (number == 0 || number == 60)
    requires Options6Error(d[at + 2..at + n]) == None
    ensures e.OptionsHeader? && e.kind == number && e.Legal() && e.Print(d[at]) == d[at..at + n]
  {
    hide Options6Error, Printed6, AllLegal6;
    var list := Options6Spelled(d[at + 2..at + n]);
    e := OptionsHeader(number, list);
    InEights(n, d[at + 1]);
    assert d[at..at + n] == [d[at], d[at + 1]] + d[at + 2..at + n];
  }

  lemma WholeSpelled(d: seq<byte>, at: nat) returns (e: Ext)
    requires AtomicFragment(d, at, false) == None
    ensures e.Whole? && e.Legal() && e.Number() == 44 && at + 8 <= |d| && e.Print(d[at]) == d[at..at + 8]
  {
    e := Whole(d[at + 4..at + 8]);
    assert d[at + 2] == 0 && d[at + 3] == 0;
  }

  lemma FrontSpelled(d: seq<byte>, number: byte, at: nat, fragment: bool) returns (e: Ext, n: nat)
    requires at <= |d| && Transport6(d, number, at, fragment).Ok? && number != 6 && number != 17
    ensures e.Legal() && e.Number() == number && at + n <= |d| && 8 <= n == |e.Print(d[at])| && e.Print(d[at]) == d[at..at + n]
    ensures (e.OptionsHeader? && e.kind == 0 ==> at == 40) && (e.Whole? ==> !fragment)
    ensures Transport6(d, number, at, fragment) == Transport6(d, d[at], at + n, fragment || e.Whole?)
  {
    hide Extension, AtomicFragment, Transport6, Ext.Print, Ext.Legal;
    FrontOk(d, number, at, fragment);
    if number == 44 {
      OneFragment(d, at, fragment);
      e := WholeSpelled(d, at);
      StepWhole(d, at);
      n := 8;
    } else {
      e := ExtSpelled(d, number, at);
      n := Extension(d, number, at).value;
      StepExt(d, number, at, fragment, n);
    }
  }

  lemma FrontOk(d: seq<byte>, number: byte, at: nat, fragment: bool)
    requires at <= |d| && Transport6(d, number, at, fragment).Ok? && number != 6 && number != 17
    ensures if number == 44 then AtomicFragment(d, at, fragment) == None
            else (number == 0 || number == 43 || number == 60) && Extension(d, number, at).Ok?
  {
    hide Extension, AtomicFragment;
  }

  lemma OneFragment(d: seq<byte>, at: nat, fragment: bool)
    requires AtomicFragment(d, at, fragment) == None
    ensures !fragment
  {
  }

  lemma {:induction false} WalkSpelled(d: seq<byte>, number: byte, at: nat, fragment: bool) returns (exts: seq<Ext>)
    requires 40 <= at <= |d| && Transport6(d, number, at, fragment).Ok?
    ensures LegalList(exts, at == 40, fragment)
    ensures var (off, last) := Transport6(d, number, at, fragment).value;
            FirstNumber(exts, last) == number && PrintedList(exts, at == 40, fragment, last) == d[at..off]
    decreases |d| - at
  {
    hide Transport6;
    if number == 6 || number == 17 {
      StepLast(d, number, at, fragment);
      return [];
    }
    hide PrintedList, LegalList;
    var e, n := FrontSpelled(d, number, at, fragment);
    var rest := WalkSpelled(d, d[at], at + n, fragment || e.Whole?);
    assert at + n != 40;
    exts := [e] + rest;
    var (off, last) := Transport6(d, number, at, fragment).value;
    ListCons(e, rest, at == 40, fragment, last);
    Sliced(d, at, at + n, off);
  }

  lemma Sliced(d: seq<byte>, a: nat, b: nat, c: nat)
    requires a <= b <= c <= |d|
    ensures d[a..c] == d[a..b] + d[b..c]
  {
  }

  // ---- Whole packets ----

  /** The network header's fields; n is the length of the transport part behind it. */
  datatype Net =
    | Net4(tos: byte, id: uint16, dontFragment: bool, ttl: byte, checksum: uint16,
           source4: Bytes4, destination4: Bytes4, options: Options)
    | Net6(traffic: byte, flowLabel: nat, hopLimit: byte, source6: Bytes16, destination6: Bytes16, exts: seq<Ext>)
  {
    function Source(): Addr {
      if Net4? then V4(source4) else V6(source6, "")
    }

    function Destination(): Addr {
      if Net4? then V4(destination4) else V6(destination6, "")
    }
  }

  predicate LegalPacket(net: Net, s: Segment) {
    s.Legal() &&
    match net
    case Net4(_, _, _, _, _, _, _, options) => options.Legal(true) && 20 + |options.Print(true)| + |s.Print()| <= 0xffff
    case Net6(_, flowLabel, _, source, destination, exts) =>
      && flowLabel < 0x10_0000 && LegalList(exts, true, false)
      && |PrintedList(exts, true, false, s.Number())| + |s.Print()| <= 0xffff
      && !V6(source, "").Is4In6() && !V6(destination, "").Is4In6()
  }

  function Head4(n: Net, o: seq<byte>, length: uint16, protocol: byte): (h: seq<byte>)
    requires n.Net4? && |o| <= 40
    ensures |h| == 20 + |o|
  {
    [0x40 + (20 + |o|) / 4, n.tos] + U16(length) + U16(n.id) + [if n.dontFragment then 0x40 else 0, 0, n.ttl, protocol]
    + U16(n.checksum) + n.source4 + n.destination4 + o
  }

  function Head6(n: Net, length: uint16, next: byte): (h: seq<byte>)
    requires n.Net6? && n.flowLabel < 0x10_0000
    ensures |h| == 40
  {
    [0x60 + n.traffic / 16, n.traffic % 16 * 16 + n.flowLabel / 0x1_0000, n.flowLabel / 0x100 % 0x100, n.flowLabel % 0x100]
    + U16(length) + [next, n.hopLimit] + n.source6 + n.destination6
  }

  /** The network header with its options or extension headers. */
  function HeadOf(net: Net, s: Segment): seq<byte>
    requires LegalPacket(net, s)
  {
    match net
    case Net4(_, _, _, _, _, _, _, options) =>
      Head4(net, options.Print(true), 20 + |options.Print(true)| + |s.Print()|, s.Number())
    case Net6(_, _, _, _, _, exts) =>
      var x := PrintedList(exts, true, false, s.Number());
      Head6(net, |x| + |s.Print()|, FirstNumber(exts, s.Number())) + x
  }

  function PrintPacket(net: Net, s: Segment): seq<byte>
    requires LegalPacket(net, s)
  {
    HeadOf(net, s) + s.Print()
  }

  /** What the parser must find in the print. */
  function Meant(net: Net, s: Segment): IpPacket
    requires LegalPacket(net, s)
  {
    var source, destination := AddrPort(net.Source(), s.source), AddrPort(net.Destination(), s.destination);
    if s.Tcp? then IpPacket(PrintPacket(net, s), source, destination, ProtoTCP, s.flags, s.sequence, s.ack, |HeadOf(net, s)|, s.payload)
    else IpPacket(PrintPacket(net, s), source, destination, ProtoUDP, 0, 0, 0, |HeadOf(net, s)|, s.payload)
  }

  lemma Head4Fields(n: Net, o: seq<byte>, length: uint16, protocol: byte, t: seq<byte>)
    requires n.Net4? && |o| <= 40 && |o| % 4 == 0
    ensures var d := Head4(n, o, length, protocol) + t;
            && |d| == 20 + |o| + |t| && d[0] / 16 == 4 && d[0] % 16 * 4 == 20 + |o| && U16At(d, 2) == length
            && d[6] / 128 == 0 && U16At(d, 6) % 0x4000 == 0 && d[20..20 + |o|] == o && d[9] == protocol
            && d[12..16] == n.source4 && d[16..20] == n.destination4 && d[20 + |o|..] == t
  {
    hide U16;
    var d := Head4(n, o, length, protocol) + t;
    assert d[2..4] == U16(length);
    Read16(d, 2);
    assert d[6] == (if n.dontFragment then 0x40 else 0) && d[7] == 0;
    assert d[20..20 + |o|] == o;
    assert d[12..16] == n.source4;
    assert d[16..20] == n.destination4;
    assert d[20 + |o|..] == t;
  }

  lemma Reads4(net: Net, s: Segment)
    requires net.Net4? && LegalPacket(net, s)
    ensures var d := PrintPacket(net, s);
            && Header(d) == Ok((|HeadOf(net, s)|, s.Number())) && d != [] && |d| >= 20 && IsIPv4(d)
            && SourceAddr(d) == net.Source() && DestinationAddr(d) == net.Destination() && d[|HeadOf(net, s)|..] == s.Print()
  {
    hide OptionsError, Segment.Print, Printed, Head4, U16At;
    OptionsAccepted(net.options, true);
    var o, t := net.options.Print(true), s.Print();
    Head4Fields(net, o, 20 + |o| + |t|, s.Number(), t);
  }

  lemma Head6Fields(n: Net, length: uint16, next: byte, x: seq<byte>, t: seq<byte>)
    requires n.Net6? && n.flowLabel < 0x10_0000
    ensures var d := Head6(n, length, next) + x + t;
            && |d| == 40 + |x| + |t| && d[0] / 16 == 6 && U16At(d, 4) == length && d[6] == next
            && d[8..24] == n.source6 && d[24..40] == n.destination6 && Here(d, 40, x) && d[40 + |x|..] == t
  {
    hide U16;
    var d := Head6(n, length, next) + x + t;
    assert d[4..6] == U16(length);
    Read16(d, 4);
    assert d[8..24] == n.source6;
    assert d[24..40] == n.destination6;
    assert d[40..40 + |x|] == x;
    assert d[40 + |x|..] == t;
  }

  lemma Reads6(net: Net, s: Segment)
    requires net.Net6? && LegalPacket(net, s)
    ensures var d := PrintPacket(net, s);
            && Header(d) == Ok((|HeadOf(net, s)|, s.Number())) && d != [] && |d| >= 40 && !IsIPv4(d)
            && SourceAddr(d) == net.Source() && DestinationAddr(d) == net.Destination() && d[|HeadOf(net, s)|..] == s.Print()
  {
    hide Transport6, PrintedList, LegalList, Head6, U16At, Segment.Print, Here;
    var x, t := PrintedList(net.exts, true, false, s.Number()), s.Print();
    SegmentLength(s);
    var d := PrintPacket(net, s);
    Head6Fields(net, |x| + |t|, FirstNumber(net.exts, s.Number()), x, t);
    WalkReads(d, 40, true, net.exts, false, s.Number());
  }

  lemma SegmentLength(s: Segment)
    requires s.Legal()
    ensures |s.Print()| >= 8
  {
  }

  /** Whatever the header options or extension headers and the TCP options are: the parser
      gives back exactly the fields printed, and the payload behind the options. */
  lemma ParseOfPrint(net: Net, s: Segment)
    requires LegalPacket(net, s)
    ensures Parse(PrintPacket(net, s)) == Ok(Meant(net, s))
  {
    if net.Net4? {
      Reads4(net, s);
    } else {
      Reads6(net, s);
    }
    if s.Tcp? {
      TcpReads(s);
    } else {
      UdpReads(s);
    }
    hide Header, SourceAddr, DestinationAddr, TcpError, UdpError, LegalPacket, HeadOf, Segment.Print, U16At, U32At;
  }

  lemma Spelled4(d: seq<byte>) returns (net: Net)
    requires d != [] && IsIPv4(d) && Header(d).Ok?
    ensures var (off, next) := Header(d).value;
            net.Net4? && net.options.Legal(true) && off == 20 + |net.options.Print(true)| && off <= |d| <= 0xffff
            && d[..off] == Head4(net, net.options.Print(true), |d|, next)
  {
    hide OptionsError, U16, U16At, Printed;
    var (off, next) := Header(d).value;
    var options := OptionsSpelled(d[20..off], true);
    net := Net4(d[1], U16At(d, 4), d[6] == 0x40, d[8], U16At(d, 10), d[12..16], d[16..20], options);
    FlagBytes(d);
    U16Encodes(d, 2);
    U16Encodes(d, 4);
    U16Encodes(d, 10);
    assert d[0] == 0x40 + off / 4;
    Cut4(d, off);
  }

  lemma FlagBytes(d: seq<byte>)
    requires |d| >= 8 && d[6] / 128 != 1 && U16At(d, 6) % 0x4000 == 0
    ensures d[7] == 0 && (d[6] == 0 || d[6] == 0x40)
  {
  }

  lemma Cut4(d: seq<byte>, off: nat)
    requires 20 <= off <= |d|
    ensures d[..off] == [d[0], d[1]] + d[2..4] + d[4..6] + [d[6], d[7], d[8], d[9]] + d[10..12] + d[12..16] + d[16..20] + d[20..off]
  {
    assert d[..10] == [d[0], d[1]] + d[2..4] + d[4..6] + [d[6], d[7], d[8], d[9]];
    assert d[..20] == d[..10] + d[10..12] + d[12..16] + d[16..20];
    assert d[..off] == d[..20] + d[20..off];
  }

  lemma Spelled6(d: seq<byte>) returns (net: Net)
    requires d != [] && !IsIPv4(d) && Header(d).Ok?
    ensures var (off, next) := Header(d).value;
            && net.Net6? && net.flowLabel < 0x10_0000 && LegalList(net.exts, true, false) && 40 <= off <= |d| <= 40 + 0xffff
            && !V6(net.source6, "").Is4In6() && !V6(net.destination6, "").Is4In6()
            && d[..40] == Head6(net, |d| - 40, FirstNumber(net.exts, next)) && d[40..off] == PrintedList(net.exts, true, false, next)
  {
    hide U16, U16At, Transport6, PrintedList, LegalList;
    var (off, next) := Header(d).value;
    var exts := WalkSpelled(d, d[6], 40, false);
    net := Net6(d[0] % 16 * 16 + d[1] / 16, d[1] % 16 * 0x1_0000 + d[2] as int * 0x100 + d[3], d[7], d[8..24], d[24..40], exts);
    U16Encodes(d, 4);
    LabelBytes(d);
    assert d[..40] == [d[0], d[1], d[2], d[3]] + d[4..6] + [d[6], d[7]] + d[8..24] + d[24..40];
  }

  lemma LabelBytes(d: seq<byte>)
    requires |d| >= 4 && d[0] / 16 == 6
    ensures var traffic, flowLabel := d[0] % 16 * 16 + d[1] / 16, d[1] % 16 * 0x1_0000 + d[2] as int * 0x100 + d[3];
            && traffic < 0x100 && flowLabel < 0x10_0000
            && 0x60 + traffic / 16 == d[0] as int && traffic % 16 * 16 + flowLabel / 0x1_0000 == d[1] as int
            && flowLabel / 0x100 % 0x100 == d[2] as int && flowLabel % 0x100 == d[3] as int
  {
    Nibbles(d[0] % 16, d[1] / 16);
    ThreeBytes(d[1] % 16, d[2], d[3]);
  }

  lemma Nibbles(a: nat, b: nat)
    requires a < 16 && b < 16
    ensures a * 16 + b < 0x100 && (a * 16 + b) / 16 == a && (a * 16 + b) % 16 == b
  {
  }

  lemma ThreeBytes(a: nat, b: nat, c: nat)
    requires a < 16 && b < 0x100 && c < 0x100
    ensures var n := a * 0x1_0000 + b * 0x100 + c;
            n < 0x10_0000 && n / 0x1_0000 == a && n / 0x100 % 0x100 == b && n % 0x100 == c
  {
    var n := a * 0x1_0000 + b * 0x100 + c;
    assert n / 0x100 == a * 0x100 + b;
  }

  lemma TransportSpelled(d: seq<byte>) returns (s: Segment)
    requires Parse(d).Ok?
    ensures Header(d).Ok? && s.Legal() && s.Number() == Header(d).value.1 && s.Print() == d[Header(d).value.0..]
  {
    hide Header, TcpError, UdpError, Segment.Print, Segment.Legal;
    var (off, next) := Header(d).value;
    if next == 6 {
      s := TcpSpelled(d[off..]);
    } else {
      s := UdpSpelled(d[off..]);
    }
  }

  lemma PrintOf4(d: seq<byte>, s: Segment) returns (net: Net)
    requires d != [] && IsIPv4(d) && Header(d).Ok?
    requires s.Legal() && s.Number() == Header(d).value.1 && s.Print() == d[Header(d).value.0..]
    ensures LegalPacket(net, s) && PrintPacket(net, s) == d
  {
    hide Header, Head4, Segment.Print, Segment.Legal, Printed;
    var off := Header(d).value.0;
    net := Spelled4(d);
    assert d == d[..off] + d[off..];
  }

  lemma PrintOf6(d: seq<byte>, s: Segment) returns (net: Net)
    requires d != [] && !IsIPv4(d) && Header(d).Ok?
    requires s.Legal() && s.Number() == Header(d).value.1 && s.Print() == d[Header(d).value.0..]
    ensures LegalPacket(net, s) && PrintPacket(net, s) == d
  {
    hide Header, Head6, Segment.Print, Segment.Legal, PrintedList, LegalList;
    var off := Header(d).value.0;
    net := Spelled6(d);
    assert d == d[..40] + d[40..off] + d[off..];
  }

  /** Conversely every accepted byte string is the print of a legal packet. */
  lemma AcceptedIsPrint(d: seq<byte>) returns (net: Net, s: Segment)
    requires Parse(d).Ok?
    ensures LegalPacket(net, s) && PrintPacket(net, s) == d
  {
    s := TransportSpelled(d);
    assert d != [];
    hide Header, Parse, LegalPacket, PrintPacket, Segment.Print, Segment.Legal;
    if IsIPv4(d) {
      net := PrintOf4(d, s);
    } else {
      net := PrintOf6(d, s);
    }
  }

  ghost predicate IsPrint(d: seq<byte>) {
    exists net, s :: LegalPacket(net, s) && PrintPacket(net, s) == d
  }

  /** parseIPPacket accepts exactly the legal packets. */
  lemma AcceptedIffPrint(d: seq<byte>)
    ensures Parse(d).Ok? <==> IsPrint(d)
  {
    hide Parse, LegalPacket, PrintPacket;
    if Parse(d).Ok? {
      var net, s := AcceptedIsPrint(d);
    }
    if IsPrint(d) {
      var net, s :| LegalPacket(net, s) && PrintPacket(net, s) == d;
      ParseOfPrint(net, s);
    }
  }
}
