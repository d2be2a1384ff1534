/** The ClientHello messages that show a name, written from the format's side (RFC 8446
    sections 4.1.2, 4.2 and 5.1, RFC 6066 section 3), independent of the parser. */
module HelloPrint {
  import opened Bytes
  import opened Addresses
  import opened Hostname

  /** An entry of the server_name list; kind 0 is host_name. */
  datatype ServerName = ServerName(kind: byte, name: Text)

  datatype Extn = Extn(kind: uint16, data: seq<byte>)

  /** A handshake record whose server_name extension shows `name`. What stands behind the
      name in its list, behind the extension, behind the message and behind the record is
      arbitrary, because it is not read. */
  datatype Hello = Hello(
    minor: byte, versionAndRandom: seq<byte>, session: seq<byte>, ciphers: seq<byte>, compressions: seq<byte>,
    before: seq<Extn>, others: seq<ServerName>, name: Text, moreNames: seq<byte>, moreExtensions: seq<byte>,
    moreHandshake: seq<byte>, moreData: seq<byte>)

  function EntryOf(n: ServerName): seq<byte>
    requires |n.name| <= 0xffff
  {
    [n.kind] + U16(|n.name|) + n.name
  }

  predicate LegalNames(names: seq<ServerName>) {
    forall i :: 0 <= i < |names| ==> 1 <= |names[i].name| <= 0xffff
  }

  function Entries(names: seq<ServerName>): seq<byte>
    requires LegalNames(names)
  {
    if names == [] then [] else EntryOf(names[0]) + Entries(names[1..])
  }

  function ExtnOf(e: Extn): seq<byte>
    requires |e.data| <= 0xffff
  {
    U16(e.kind) + U16(|e.data|) + e.data
  }

  predicate LegalExtns(es: seq<Extn>) {
    forall i :: 0 <= i < |es| ==> es[i].kind != 0 && |es[i].data| <= 0xffff
  }

  function Extns(es: seq<Extn>): seq<byte>
    requires LegalExtns(es)
  {
    if es == [] then [] else ExtnOf(es[0]) + Extns(es[1..])
  }

  /** A name that the probe passes over: of another kind, or no safe hostname. */
  predicate Skipped(lib: Strings, names: seq<ServerName>) {
    forall i :: 0 <= i < |names| ==> names[i].kind != 0 || Safe(lib, names[i].name) == []
  }

  // ---- The list of names ----

  lemma EntryFront(n: ServerName, tail: seq<byte>)
    requires 1 <= |n.name| <= 0xffff
    ensures var s := EntryOf(n) + tail;
            && |s| == 3 + |n.name| + |tail| && s[0] == n.kind && U16At(s, 1) == |n.name|
            && s[3..3 + |n.name|] == n.name && s[3 + |n.name|..] == tail
  {
    hide U16;
    var s := EntryOf(n) + tail;
    assert s[1..3] == U16(|n.name|);
    Read16(s, 1);
  }

  lemma Read16(t: seq<byte>, i: nat)
    requires i + 2 <= |t|
    ensures U16At(t, i) == U16At(t[i..i + 2], 0)
  {
  }

  lemma NameListStep(lib: Strings, n: ServerName, tail: seq<byte>)
    requires 1 <= |n.name| <= 0xffff
    ensures NameList(lib, EntryOf(n) + tail) ==
            if n.kind == 0 && Safe(lib, n.name) != [] then Found(Safe(lib, n.name), TlsSni) else NameList(lib, tail)
  {
    hide EntryOf, Safe;
    EntryFront(n, tail);
  }

  lemma {:induction false} NamesRead(lib: Strings, others: seq<ServerName>, name: Text, more: seq<byte>)
    requires LegalNames(others) && Skipped(lib, others) && 1 <= |name| <= 0xffff && Safe(lib, name) != []
    ensures NameList(lib, Entries(others) + (EntryOf(ServerName(0, name)) + more)) == Found(Safe(lib, name), TlsSni)
  {
    hide NameList, Safe, EntryOf;
    var rest := EntryOf(ServerName(0, name)) + more;
    if others == [] {
      assert Entries(others) + rest == rest;
      NameListStep(lib, ServerName(0, name), more);
    } else {
      NamesRead(lib, others[1..], name, more);
      Joined(EntryOf(others[0]), Entries(others[1..]), rest);
      NameListStep(lib, others[0], Entries(others[1..]) + rest);
    }
  }

  lemma Joined(a: seq<byte>, b: seq<byte>, c: seq<byte>)
    ensures a + b + c == a + (b + c)
  {
  }

  lemma EntrySpelled(n: seq<byte>)
    requires |n| >= 3 && U16At(n, 1) > 0 && 3 + U16At(n, 1) <= |n|
    ensures n == EntryOf(ServerName(n[0], n[3..3 + U16At(n, 1)])) + n[3 + U16At(n, 1)..]
  {
    hide U16, U16At;
    U16Encodes(n, 1);
    var k := U16At(n, 1);
    assert n == [n[0]] + n[1..3] + n[3..3 + k] + n[3 + k..];
  }

  lemma {:induction false} NamesSpelled(lib: Strings, n: seq<byte>)
    returns (others: seq<ServerName>, name: Text, more: seq<byte>)
    requires NameList(lib, n).Found? && |n| <= 0xffff
    ensures LegalNames(others) && Skipped(lib, others) && 1 <= |name| <= 0xffff && Safe(lib, name) != []
    ensures NameList(lib, n) == Found(Safe(lib, name), TlsSni)
    ensures n == Entries(others) + (EntryOf(ServerName(0, name)) + more)
    decreases |n|
  {
    hide Safe, EntryOf, NameList, U16At;
    NameListLong(lib, n);
    EntrySpelled(n);
    var length := U16At(n, 1);
    var first, tail := ServerName(n[0], n[3..3 + length]), n[3 + length..];
    NameListStep(lib, first, tail);
    if n[0] == 0 && Safe(lib, first.name) != [] {
      others, name, more := [], first.name, tail;
      assert n == [] + n;
    } else {
      var rest: seq<ServerName>;
      rest, name, more := NamesSpelled(lib, tail);
      others := [first] + rest;
      EntriesCons(first, rest, EntryOf(ServerName(0, name)) + more);
    }
  }

  lemma NameListLong(lib: Strings, n: seq<byte>)
    requires NameList(lib, n).Found?
    ensures |n| >= 3 && U16At(n, 1) > 0 && 3 + U16At(n, 1) <= |n|
  {
    hide Safe;
  }

  lemma EntriesCons(n: ServerName, rest: seq<ServerName>, tail: seq<byte>)
    requires 1 <= |n.name| <= 0xffff && LegalNames(rest)
    ensures LegalNames([n] + rest) && Entries([n] + rest) + tail == EntryOf(n) + (Entries(rest) + tail)
  {
    hide EntryOf;
    assert ([n] + rest)[1..] == rest;
    Joined(EntryOf(n), Entries(rest), tail);
  }

  // ---- The list of extensions ----

  lemma ExtnFront(e: Extn, tail: seq<byte>)
    requires |e.data| <= 0xffff
    ensures var s := ExtnOf(e) + tail;
            && |s| == 4 + |e.data| + |tail| && U16At(s, 0) == e.kind && U16At(s, 2) == |e.data|
            && s[4..4 + |e.data|] == e.data && s[4 + |e.data|..] == tail
  {
    hide U16;
    var s := ExtnOf(e) + tail;
    assert s[0..2] == U16(e.kind) && s[2..4] == U16(|e.data|);
    Read16(s, 0);
    Read16(s, 2);
  }

  lemma ExtensionsStep(lib: Strings, e: Extn, tail: seq<byte>)
    requires |e.data| <= 0xffff
    ensures Extensions(lib, ExtnOf(e) + tail) == if e.kind == 0 then Names(lib, e.data) else Extensions(lib, tail)
  {
    hide ExtnOf, Names;
    ExtnFront(e, tail);
  }

  lemma {:induction false} ExtensionsRead(lib: Strings, before: seq<Extn>, data: seq<byte>, more: seq<byte>)
    requires LegalExtns(before) && |data| <= 0xffff
    ensures Extensions(lib, Extns(before) + (ExtnOf(Extn(0, data)) + more)) == Names(lib, data)
  {
    hide Extensions, Names, ExtnOf;
    var rest := ExtnOf(Extn(0, data)) + more;
    if before == [] {
      assert Extns(before) + rest == rest;
      ExtensionsStep(lib, Extn(0, data), more);
    } else {
      ExtensionsRead(lib, before[1..], data, more);
      Joined(ExtnOf(before[0]), Extns(before[1..]), rest);
      ExtensionsStep(lib, before[0], Extns(before[1..]) + rest);
    }
  }

  lemma ExtnSpelled(e: seq<byte>)
    requires |e| >= 4 && 4 + U16At(e, 2) <= |e|
    ensures e == ExtnOf(Extn(U16At(e, 0), e[4..4 + U16At(e, 2)])) + e[4 + U16At(e, 2)..]
  {
    hide U16, U16At;
    U16Encodes(e, 0);
    U16Encodes(e, 2);
    var k := U16At(e, 2);
    assert e == e[0..2] + e[2..4] + e[4..4 + k] + e[4 + k..];
  }

  lemma {:induction false} ExtensionsSpelled(lib: Strings, e: seq<byte>) returns (before: seq<Extn>, data: seq<byte>, more: seq<byte>)
    requires Extensions(lib, e).Found?
    ensures LegalExtns(before) && |data| <= 0xffff && Extensions(lib, e) == Names(lib, data)
    ensures e == Extns(before) + (ExtnOf(Extn(0, data)) + more)
    decreases |e|
  {
    hide Names, ExtnOf, Extensions, U16At;
    ExtensionsLong(lib, e);
    ExtnSpelled(e);
    var size := U16At(e, 2);
    var first, tail := Extn(U16At(e, 0), e[4..4 + size]), e[4 + size..];
    ExtensionsStep(lib, first, tail);
    if first.kind == 0 {
      before, data, more := [], first.data, tail;
      assert e == [] + e;
    } else {
      var rest: seq<Extn>;
      rest, data, more := ExtensionsSpelled(lib, tail);
      before := [first] + rest;
      ExtnsCons(first, rest, ExtnOf(Extn(0, data)) + more);
    }
  }

  lemma ExtensionsLong(lib: Strings, e: seq<byte>)
    requires Extensions(lib, e).Found?
    ensures |e| >= 4 && 4 + U16At(e, 2) <= |e|
  {
    hide Names;
  }

  lemma ExtnsCons(e: Extn, rest: seq<Extn>, tail: seq<byte>)
    requires e.kind != 0 && |e.data| <= 0xffff && LegalExtns(rest)
    ensures LegalExtns([e] + rest) && Extns([e] + rest) + tail == ExtnOf(e) + (Extns(rest) + tail)
  {
    hide ExtnOf;
    assert ([e] + rest)[1..] == rest;
    Joined(ExtnOf(e), Extns(rest), tail);
  }

  // ---- The message and its record ----

  function NameBlock(h: Hello): seq<byte>
    requires LegalNames(h.others) && |h.name| <= 0xffff
  {
    Entries(h.others) + (EntryOf(ServerName(0, h.name)) + h.moreNames)
  }

  /** The data of the server_name extension. */
  function SniOf(h: Hello): seq<byte>
    requires LegalNames(h.others) && |h.name| <= 0xffff && |NameBlock(h)| <= 0xfffd
  {
    U16(|NameBlock(h)|) + NameBlock(h)
  }

  function ExtensionBlock(h: Hello): seq<byte>
    requires LegalNames(h.others) && |h.name| <= 0xffff && |NameBlock(h)| <= 0xfffd && LegalExtns(h.before)
  {
    Extns(h.before) + (ExtnOf(Extn(0, SniOf(h))) + h.moreExtensions)
  }

  predicate LegalBody(lib: Strings, h: Hello) {
    && |h.versionAndRandom| == 34 && |h.session| <= 32
    && 2 <= |h.ciphers| <= 0xffff && |h.ciphers| % 2 == 0 && 1 <= |h.compressions| <= 0xff
    && LegalNames(h.others) && Skipped(lib, h.others) && 1 <= |h.name| <= 0xffff && Safe(lib, h.name) != []
    && LegalExtns(h.before) && |NameBlock(h)| <= 0xfffd && |ExtensionBlock(h)| <= 0xffff
  }

  /** Within the size that the probe reads. */
  predicate LegalHello(lib: Strings, h: Hello) {
    LegalBody(lib, h) && h.minor <= 4 && 4 + |BodyOf(h)| + |h.moreHandshake| + 5 <= 8192
  }

  function BodyOf(h: Hello): seq<byte>
    requires |h.session| <= 0xff && |h.ciphers| <= 0xffff && |h.compressions| <= 0xff
    requires LegalNames(h.others) && |h.name| <= 0xffff && LegalExtns(h.before) && |NameBlock(h)| <= 0xfffd && |ExtensionBlock(h)| <= 0xffff
  {
    h.versionAndRandom + [|h.session|] + h.session + U16(|h.ciphers|) + h.ciphers + [|h.compressions|] + h.compressions
    + U16(|ExtensionBlock(h)|) + ExtensionBlock(h)
  }

  function U24(n: nat): (s: seq<byte>)
    requires n < 0x100_0000
    ensures |s| == 3
  {
    [n / 0x1_0000, n / 0x100 % 0x100, n % 0x100]
  }

  /** The bytes of the stream so far. */
  function HelloBytes(lib: Strings, h: Hello): seq<byte>
    requires LegalHello(lib, h)
  {
    var handshake := [1] + U24(|BodyOf(h)|) + BodyOf(h) + h.moreHandshake;
    [0x16, 3, h.minor] + U16(|handshake|) + handshake + h.moreData
  }

  lemma SniRead(lib: Strings, h: Hello)
    requires LegalNames(h.others) && Skipped(lib, h.others) && 1 <= |h.name| <= 0xffff && Safe(lib, h.name) != [] && |NameBlock(h)| <= 0xfffd
    ensures Names(lib, SniOf(h)) == Found(Safe(lib, h.name), TlsSni)
  {
    hide Safe, NameList, U16, Entries;
    NamesRead(lib, h.others, h.name, h.moreNames);
    var s := SniOf(h);
    assert s[0..2] == U16(|NameBlock(h)|) && s[2..] == NameBlock(h);
    Read16(s, 0);
  }

  /** The parts in front of the extension block. */
  lemma BodyFront(head: seq<byte>, session: seq<byte>, ciphers: seq<byte>, compressions: seq<byte>, block: seq<byte>)
    requires |head| == 34 && |session| <= 32 && 2 <= |ciphers| <= 0xffff && |ciphers| % 2 == 0 && 1 <= |compressions| <= 0xff && |block| <= 0xffff
    ensures var b := head + [|session|] + session + U16(|ciphers|) + ciphers + [|compressions|] + compressions + U16(|block|) + block;
            ExtensionsAt(b).Some? && b[ExtensionsAt(b).value..] == block
  {
    hide U16, U16At;
    var b := head + [|session|] + session + U16(|ciphers|) + ciphers + [|compressions|] + compressions + U16(|block|) + block;
    var p1 := 35 + |session|;
    var p2 := p1 + 2 + |ciphers|;
    var p3 := p2 + 1 + |compressions|;
    assert b[34] == |session|;
    assert b[p1..p1 + 2] == U16(|ciphers|);
    Read16(b, p1);
    assert b[p2] == |compressions|;
    assert b[p3..p3 + 2] == U16(|block|);
    Read16(b, p3);
    assert b[p3 + 2..] == block;
  }

  lemma BodyRead(lib: Strings, h: Hello)
    requires LegalHello(lib, h)
    ensures ClientHello(lib, BodyOf(h)) == Found(Safe(lib, h.name), TlsSni)
  {
    SniRead(lib, h);
    ExtensionsRead(lib, h.before, SniOf(h), h.moreExtensions);
    BodyFront(h.versionAndRandom, h.session, h.ciphers, h.compressions, ExtensionBlock(h));
    hide Extensions, Names, ExtensionsAt, Safe, SniOf, U16;
  }

  lemma U24Read(n: nat, tail: seq<byte>)
    requires n < 0x100_0000
    ensures U24At([1] + U24(n) + tail, 1) == n
  {
    assert n / 0x100 == n / 0x1_0000 * 0x100 + n / 0x100 % 0x100;
  }

  lemma HandshakeRead(lib: Strings, body: seq<byte>, more: seq<byte>)
    requires 34 <= |body| < 0x100_0000
    ensures Handshake(lib, [1] + U24(|body|) + body + more) == ClientHello(lib, body)
  {
    hide ClientHello, U24At, U24;
    var b := [1] + U24(|body|) + body + more;
    U24Read(|body|, body + more);
    assert b == [1] + U24(|body|) + (body + more);
    assert b[4..4 + |body|] == body;
  }

  lemma RecordRead(lib: Strings, minor: byte, handshake: seq<byte>, more: seq<byte>)
    requires minor <= 4 && 4 <= |handshake| && |handshake| + 5 <= 8192
    ensures Parse(lib, [0x16, 3, minor] + U16(|handshake|) + handshake + more) == Handshake(lib, handshake)
  {
    hide Handshake, U16, U16At;
    var d := [0x16, 3, minor] + U16(|handshake|) + handshake + more;
    assert d[3..5] == U16(|handshake|);
    Read16(d, 3);
    assert d[5..5 + |handshake|] == handshake;
  }

  /** Whatever extensions and names come before it: the first safe host_name is found. */
  lemma HelloRead(lib: Strings, h: Hello)
    requires LegalHello(lib, h)
    ensures Parse(lib, HelloBytes(lib, h)) == Found(Safe(lib, h.name), TlsSni)
  {
    BodyRead(lib, h);
    hide ClientHello, Safe, U24, U16, Parse, Handshake;
    var body := BodyOf(h);
    HandshakeRead(lib, body, h.moreHandshake);
    RecordRead(lib, h.minor, [1] + U24(|body|) + body + h.moreHandshake, h.moreData);
  }

  // ---- Conversely ----

  lemma BodySpelled(b: seq<byte>) returns (head: seq<byte>, session: seq<byte>, ciphers: seq<byte>, compressions: seq<byte>)
    requires ExtensionsAt(b).Some? && |b| < 0x1_0000
    ensures |head| == 34 && |session| <= 32 && 2 <= |ciphers| <= 0xffff && |ciphers| % 2 == 0 && 1 <= |compressions| <= 0xff
    ensures var block := b[ExtensionsAt(b).value..];
            |block| <= 0xffff
            && b == head + [|session|] + session + U16(|ciphers|) + ciphers + [|compressions|] + compressions + U16(|block|) + block
  {
    hide U16, U16At;
    var p1 := 35 + b[34] as int;
    var p2 := p1 + 2 + U16At(b, p1);
    var p3 := p2 + 1 + b[p2] as int;
    head, session, ciphers, compressions := b[..34], b[35..p1], b[p1 + 2..p2], b[p2 + 1..p3];
    U16Encodes(b, p1);
    U16Encodes(b, p3);
    BodyParts(b, p1, p2, p3);
  }

  lemma BodyParts(b: seq<byte>, p1: nat, p2: nat, p3: nat)
    requires 35 <= p1 && p1 + 2 <= p2 && p2 + 1 <= p3 && p3 + 2 <= |b|
    ensures b == b[..34] + [b[34]] + b[35..p1] + b[p1..p1 + 2] + b[p1 + 2..p2] + [b[p2]] + b[p2 + 1..p3] + b[p3..p3 + 2] + b[p3 + 2..]
  {
    assert b[..p1 + 2] == b[..34] + [b[34]] + b[35..p1] + b[p1..p1 + 2];
    assert b[..p3] == b[..p1 + 2] + b[p1 + 2..p2] + [b[p2]] + b[p2 + 1..p3];
    assert b == b[..p3] + b[p3..p3 + 2] + b[p3 + 2..];
  }

  lemma SniSpelled(lib: Strings, n: seq<byte>) returns (others: seq<ServerName>, name: Text, more: seq<byte>)
    requires Names(lib, n).Found? && |n| <= 0xffff
    ensures LegalNames(others) && Skipped(lib, others) && 1 <= |name| <= 0xffff && Safe(lib, name) != []
    ensures Names(lib, n) == Found(Safe(lib, name), TlsSni)
    ensures var list := Entries(others) + (EntryOf(ServerName(0, name)) + more); |list| <= 0xfffd && n == U16(|list|) + list
  {
    hide NameList, Safe, U16, U16At, Entries, EntryOf;
    others, name, more := NamesSpelled(lib, n[2..]);
    U16Encodes(n, 0);
    assert n == n[0..2] + n[2..];
  }

  /** Every ClientHello body that shows a name is such a spelling. */
  lemma HelloBodySpelled(lib: Strings, b: seq<byte>) returns (h: Hello)
    requires ClientHello(lib, b).Found? && |b| < 8192
    ensures LegalBody(lib, h) && ClientHello(lib, b) == Found(Safe(lib, h.name), TlsSni) && BodyOf(h) == b
  {
    hide Extensions, Names, Safe, ExtensionsAt, Entries, Extns, EntryOf, ExtnOf, U16;
    var head, session, ciphers, compressions := BodySpelled(b);
    var block := b[ExtensionsAt(b).value..];
    var before, data, moreExtensions := ExtensionsSpelled(lib, block);
    var others, name, moreNames := SniSpelled(lib, data);
    h := Hello(0, head, session, ciphers, compressions, before, others, name, moreNames, moreExtensions, [], []);
    assert NameBlock(h) == Entries(others) + (EntryOf(ServerName(0, name)) + moreNames);
    assert SniOf(h) == data && ExtensionBlock(h) == block;
  }

  lemma HandshakeSpelled(b: seq<byte>)
    requires |b| >= 4 && U24At(b, 1) <= |b| - 4
    ensures var n := U24At(b, 1);
            n < 0x100_0000 && b == [b[0]] + U24(n) + b[4..4 + n] + b[4 + n..]
  {
    var n := U24At(b, 1);
    U24Digits(b[1], b[2], b[3]);
    assert b == [b[0], b[1], b[2], b[3]] + b[4..4 + n] + b[4 + n..];
  }

  lemma U24Digits(a: byte, b: byte, c: byte)
    ensures var n := (a as int) * 0x1_0000 + (b as int) * 0x100 + c;
            n < 0x100_0000 && n / 0x1_0000 == a as int && n / 0x100 % 0x100 == b as int && n % 0x100 == c as int
  {
    var n := (a as int) * 0x1_0000 + (b as int) * 0x100 + c;
    assert n / 0x100 == a as int * 0x100 + b as int;
  }

  lemma RecordSpelled(d: seq<byte>)
    requires |d| >= 5 && |d| >= 5 + U16At(d, 3) && d[0] == 0x16 && d[1] == 3
    ensures var n := U16At(d, 3);
            d == [0x16, 3, d[2]] + U16(n) + d[5..5 + n] + d[5 + n..]
  {
    hide U16, U16At;
    var n := U16At(d, 3);
    U16Encodes(d, 3);
    assert d == [d[0], d[1], d[2]] + d[3..5] + d[5..5 + n] + d[5 + n..];
  }

  lemma FoundInRecord(lib: Strings, d: seq<byte>)
    requires d != [] && d[0] == 0x16 && Parse(lib, d).Found?
    ensures |d| >= 5 && |d| >= 5 + U16At(d, 3) && d[1] == 3 && d[2] <= 4 && 4 <= U16At(d, 3) && U16At(d, 3) + 5 <= 8192
    ensures var b := d[5..5 + U16At(d, 3)];
            && Handshake(lib, b) == Parse(lib, d) && b[0] == 1 && 34 <= U24At(b, 1) <= |b| - 4
            && ClientHello(lib, b[4..4 + U24At(b, 1)]) == Parse(lib, d)
  {
    hide ClientHello;
  }

  /** Every name that the TLS side shows comes from such a spelling. */
  lemma HelloSpelled(lib: Strings, d: seq<byte>) returns (h: Hello)
    requires d != [] && d[0] == 0x16 && Parse(lib, d).Found?
    ensures LegalHello(lib, h) && HelloBytes(lib, h) == d && Parse(lib, d) == Found(Safe(lib, h.name), TlsSni)
  {
    hide Parse, Handshake, ClientHello, Safe, U16, U16At, U24, U24At, BodyOf, LegalBody, LegalHello, HelloBytes;
    FoundInRecord(lib, d);
    var size := U16At(d, 3);
    var b := d[5..5 + size];
    var n := U24At(b, 1);
    var inner := HelloBodySpelled(lib, b[4..4 + n]);
    h := inner.(minor := d[2], moreHandshake := b[4 + n..], moreData := d[5 + size..]);
    Completed(lib, inner, d[2], b[4 + n..], d[5 + size..]);
    HandshakeSpelled(b);
    RecordSpelled(d);
    Assembled(lib, h, d, b, b[4..4 + n]);
  }

  lemma Completed(lib: Strings, h: Hello, minor: byte, moreHandshake: seq<byte>, moreData: seq<byte>)
    requires LegalBody(lib, h) && minor <= 4 && 4 + |BodyOf(h)| + |moreHandshake| + 5 <= 8192
    ensures var g := h.(minor := minor, moreHandshake := moreHandshake, moreData := moreData);
            LegalHello(lib, g) && BodyOf(g) == BodyOf(h)
  {
    hide Safe, Skipped, LegalNames, LegalExtns, NameBlock, ExtensionBlock;
    SameBody(h, minor, moreHandshake, moreData);
    hide BodyOf;
  }

  lemma Assembled(lib: Strings, h: Hello, d: seq<byte>, b: seq<byte>, body: seq<byte>)
    requires LegalHello(lib, h) && BodyOf(h) == body && |body| < 0x100_0000 && |b| <= 0xffff
    requires b == [1] + U24(|body|) + body + h.moreHandshake
    requires d == [0x16, 3, h.minor] + U16(|b|) + b + h.moreData
    ensures HelloBytes(lib, h) == d
  {
    hide LegalHello, U16, U24, BodyOf;
  }

  lemma SameBody(h: Hello, minor: byte, moreHandshake: seq<byte>, moreData: seq<byte>)
    requires |h.session| <= 0xff && |h.ciphers| <= 0xffff && |h.compressions| <= 0xff
    requires LegalNames(h.others) && |h.name| <= 0xffff && LegalExtns(h.before) && |NameBlock(h)| <= 0xfffd && |ExtensionBlock(h)| <= 0xffff
    ensures var g := h.(minor := minor, moreHandshake := moreHandshake, moreData := moreData);
            NameBlock(g) == NameBlock(h) && ExtensionBlock(g) == ExtensionBlock(h) && BodyOf(g) == BodyOf(h)
  {
    hide U16, Entries, Extns, EntryOf, ExtnOf;
    var g := h.(minor := minor, moreHandshake := moreHandshake, moreData := moreData);
    assert NameBlock(g) == NameBlock(h);
    assert SniOf(g) == SniOf(h);
    assert ExtensionBlock(g) == ExtensionBlock(h);
  }

  /** The TLS side shows a name exactly for these byte strings. */
  lemma SniFoundIff(lib: Strings, d: seq<byte>, host: Text)
    ensures Parse(lib, d) == Found(host, TlsSni) <==>
            exists h :: LegalHello(lib, h) && HelloBytes(lib, h) == d && Safe(lib, h.name) == host
  {
    if Parse(lib, d) == Found(host, TlsSni) {
      FoundByTls(lib, d);
      var h := HelloSpelled(lib, d);
    }
    hide Parse, LegalHello, HelloBytes, Safe;
    if h :| LegalHello(lib, h) && HelloBytes(lib, h) == d && Safe(lib, h.name) == host {
      HelloRead(lib, h);
    }
  }

  lemma FoundByTls(lib: Strings, d: seq<byte>)
    requires Parse(lib, d).Found? && Parse(lib, d).source.TlsSni?
    ensures d != [] && d[0] == 0x16
  {
    hide ParseTls;
    if d != [] && d[0] != 0x16 {
      HttpSource(lib, d);
    }
  }

  lemma HttpSource(lib: Strings, d: seq<byte>)
    ensures ParseHttp(lib, d).Found? ==> ParseHttp(lib, d).source.HttpHost?
  {
    hide HostHeader;
    match IndexFrom(d, CRLF() + CRLF(), 0)
    case Some(end) => HeaderSource(lib, Lines(d[..end], CRLF())[1..]);
    case None =>
  }

  lemma {:induction false} HeaderSource(lib: Strings, lines: seq<Text>)
    ensures HostHeader(lib, lines).Found? ==> HostHeader(lib, lines).source.HttpHost?
  {
    if lines != [] {
      HeaderSource(lib, lines[1..]);
    }
  }
}
