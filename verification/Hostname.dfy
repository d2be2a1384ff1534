/** The passive hostname probe: TLS ClientHello SNI (RFC 8446 section 4.1.2, RFC
    6066 section 3) and HTTP/1.x Host, read from the first bytes of a stream. */
module Hostname {
  import opened Bytes
  import opened Addresses

  type Text = seq<byte>

  /** The string library of the program. Nothing is assumed about it. */
  datatype Strings = Strings(
    lower: Text -> Text, trimSpace: Text -> Text, isIP: Text -> bool,
    equalFold: (Text, Text) -> bool, splitHostPort: Text -> Option<Text>, isNumber: Text -> bool)

  datatype Source = TlsSni | HttpHost

  /** A name, nothing to be found, or not decided yet. */
  datatype Probe = Found(host: Text, source: Source) | Nothing | NeedMore

  // ---- Names ----

  /** The pieces between occurrences of c. */
  function Split(s: Text, c: byte): (r: seq<Text>)
    ensures |r| >= 1
  {
    if s == [] then [[]]
    else
      var rest := Split(s[1..], c);
      if s[0] == c then [[]] + rest else [[s[0]] + rest[0]] + rest[1..]
  }

  predicate LabelByte(b: byte) {
    (97 <= b <= 122) || (48 <= b <= 57) || b == 45
  }

  /** Letters, digits and inner hyphens, 1 to 63 of them. */
  predicate LdhLabel(part: Text) {
    && 1 <= |part| <= 63 && part[0] != 45 && part[|part| - 1] != 45
    && forall i :: 0 <= i < |part| ==> LabelByte(part[i])
  }

  predicate ValidName(host: Text) {
    && 3 <= |host| <= 253 && 46 in host
    && forall part :: part in Split(host, 46) ==> LdhLabel(part)
  }

  function Normalized(lib: Strings, input: Text): Text {
    var t := lib.trimSpace(input);
    lib.lower(if t != [] && t[|t| - 1] == 46 then t[..|t| - 1] else t)
  }

  /** safeObservedHostname; [] stands for no name. */
  function Safe(lib: Strings, input: Text): (r: Text)
    ensures r != [] ==> ValidName(r) && !lib.isIP(r)
  {
    var host := Normalized(lib, input);
    if ValidName(host) && !lib.isIP(host) then host else []
  }

  method SafeObservedHostname(lib: Strings, input: Text) returns (r: Text)
    ensures r == Safe(lib, input)
  {
    var host := Normalized(lib, input);
    if |host| < 3 || |host| > 253 || 46 !in host {
      return [];
    }
    if lib.isIP(host) {
      return [];
    }
    var labels := Split(host, 46);
    for n := 0 to |labels|
      invariant forall k :: 0 <= k < n ==> LdhLabel(labels[k])
    {
      var part := labels[n];
      if |part| == 0 || |part| > 63 || part[0] == 45 || part[|part| - 1] == 45 {
        assert part in labels && !LdhLabel(part);
        return [];
      }
      for i := 0 to |part|
        invariant forall k :: 0 <= k < i ==> LabelByte(part[k])
      {
        var c := part[i];
        if !(c >= 97 && c <= 122) && !(c >= 48 && c <= 57) && c != 45 {
          assert !LabelByte(part[i]);
          assert part in labels && !LdhLabel(part);
          return [];
        }
      }
    }
    return host;
  }

  function Named(host: Text, source: Source): Probe {
    if host == [] then Nothing else Found(host, source)
  }

  // ---- TLS ----

  /** server_name_list entries. */
  function NameList(lib: Strings, n: seq<byte>): Probe
    decreases |n|
  {
    if |n| < 3 then Nothing else
    var length := U16At(n, 1);
    if length == 0 || 3 + length > |n| then Nothing
    else if n[0] == 0 && Safe(lib, n[3..3 + length]) != [] then Found(Safe(lib, n[3..3 + length]), TlsSni)
    else NameList(lib, n[3 + length..])
  }

  function Names(lib: Strings, n: seq<byte>): Probe {
    if |n| < 5 || U16At(n, 0) != |n| - 2 then Nothing else NameList(lib, n[2..])
  }

  function Extensions(lib: Strings, e: seq<byte>): Probe
    decreases |e|
  {
    if |e| < 4 || 4 + U16At(e, 2) > |e| then Nothing
    else if U16At(e, 0) == 0 then Names(lib, e[4..4 + U16At(e, 2)])
    else Extensions(lib, e[4 + U16At(e, 2)..])
  }

  /** Where the extension block of a ClientHello body starts, if it is well formed. */
  function ExtensionsAt(b: seq<byte>): (r: Option<nat>)
    ensures r.Some? ==> r.value <= |b|
  {
    if |b| < 35 then None else
    var p1 := 35 + b[34] as int;
    if b[34] > 32 || p1 + 2 > |b| then None else
    var ciphers := U16At(b, p1);
    var p2 := p1 + 2 + ciphers;
    if ciphers < 2 || ciphers % 2 != 0 || p2 + 1 > |b| then None else
    var p3 := p2 + 1 + b[p2] as int;
    if b[p2] < 1 || p3 + 2 > |b| then None
    else if p3 + 2 + U16At(b, p3) != |b| then None
    else Some(p3 + 2)
  }

  function ClientHello(lib: Strings, b: seq<byte>): Probe {
    match ExtensionsAt(b)
    case None => Nothing
    case Some(at) => Extensions(lib, b[at..])
  }

  function U24At(b: seq<byte>, i: nat): nat
    requires i + 3 <= |b|
  {
    (b[i] as int) * 0x1_0000 + (b[i + 1] as int) * 0x100 + b[i + 2]
  }

  /** One TLS record's content. */
  function Handshake(lib: Strings, b: seq<byte>): Probe {
    if |b| < 4 || b[0] != 1 then Nothing
    else if U24At(b, 1) > |b| - 4 || U24At(b, 1) < 34 then Nothing
    else ClientHello(lib, b[4..4 + U24At(b, 1)])
  }

  function ParseTls(lib: Strings, data: seq<byte>): Probe {
    if |data| < 5 then NeedMore
    else if data[1] != 3 || data[2] > 4 then Nothing
    else
      var size := U16At(data, 3);
      if size < 4 || size + 5 > 8192 then Nothing
      else if |data| < 5 + size then NeedMore
      else Handshake(lib, data[5..5 + size])
  }

  /** parseTLSClientHelloSNI's loop over the names, hostname.go:124-142. */
  method ReadNames(lib: Strings, names: seq<byte>) returns (r: Probe)
    ensures r == Names(lib, names)
  {
    hide Safe;
    if |names| < 5 || U16At(names, 0) != |names| - 2 {
      return Nothing;
    }
    var idx := 2;
    while idx + 3 <= |names|
      invariant 2 <= idx <= |names|
      invariant Names(lib, names) == NameList(lib, names[idx..])
      decreases |names| - idx
    {
      var nameType := names[idx];
      var nameLen := U16At(names, idx + 1);
      assert U16At(names[idx..], 1) == nameLen;
      ghost var here := names[idx..];
      idx := idx + 3;
      if nameLen == 0 || idx + nameLen > |names| {
        return Nothing;
      }
      assert here[3..3 + nameLen] == names[idx..idx + nameLen] && here[3 + nameLen..] == names[idx + nameLen..];
      if nameType == 0 {
        var h := SafeObservedHostname(lib, names[idx..idx + nameLen]);
        if h != [] {
          return Found(h, TlsSni);
        }
      }
      idx := idx + nameLen;
    }
    return Nothing;
  }

  /** parseTLSClientHelloSNI's loop over the extensions, hostname.go:115-146. */
  method ReadExtensions(lib: Strings, b: seq<byte>, start: nat) returns (r: Probe)
    requires start <= |b|
    ensures r == Extensions(lib, b[start..])
  {
    hide Names;
    var pos := start;
    while pos + 4 <= |b|
      invariant start <= pos <= |b|
      invariant Extensions(lib, b[start..]) == Extensions(lib, b[pos..])
      decreases |b| - pos
    {
      var typ, size := U16At(b, pos), U16At(b, pos + 2);
      ghost var here := b[pos..];
      assert U16At(here, 0) == typ && U16At(here, 2) == size;
      pos := pos + 4;
      if pos + size > |b| {
        return Nothing;
      }
      assert here[4..4 + size] == b[pos..pos + size] && here[4 + size..] == b[pos + size..];
      if typ == 0 {
        r := ReadNames(lib, b[pos..pos + size]);
        return;
      }
      pos := pos + size;
    }
    return Nothing;
  }

  /** The fixed part of the ClientHello, hostname.go:81-114. */
  method FindExtensions(b: seq<byte>) returns (at: Option<nat>)
    ensures at == ExtensionsAt(b)
  {
    if |b| < 35 {
      return None;
    }
    var pos := 34;
    var sessionLen := b[pos];
    pos := pos + 1;
    if sessionLen > 32 || pos + sessionLen + 2 > |b| {
      return None;
    }
    pos := pos + sessionLen;
    var cipherLen := U16At(b, pos);
    pos := pos + 2;
    if cipherLen < 2 || cipherLen % 2 != 0 || pos + cipherLen + 1 > |b| {
      return None;
    }
    pos := pos + cipherLen;
    var compressionLen := b[pos];
    pos := pos + 1;
    if compressionLen < 1 || pos + compressionLen > |b| {
      return None;
    }
    pos := pos + compressionLen;
    if pos == |b| {
      return None;
    }
    if pos + 2 > |b| {
      return None;
    }
    var extensionLen := U16At(b, pos);
    pos := pos + 2;
    if pos + extensionLen != |b| {
      return None;
    }
    return Some(pos);
  }

  method ParseTLSClientHelloSNI(lib: Strings, data: seq<byte>) returns (r: Probe)
    ensures r == ParseTls(lib, data)
  {
    if |data| < 5 {
      return NeedMore;
    }
    if data[1] != 3 || data[2] > 4 {
      return Nothing;
    }
    var size := U16At(data, 3);
    if size < 4 || size as int + 5 > 8192 {
      return Nothing;
    }
    if |data| < 5 + size {
      return NeedMore;
    }
    var b := data[5..5 + size];
    if |b| < 4 || b[0] != 1 {
      return Nothing;
    }
    var handshakeLen := U24At(b, 1);
    if handshakeLen > |b| - 4 || handshakeLen < 34 {
      return Nothing;
    }
    b := b[4..4 + handshakeLen];
    var at := FindExtensions(b);
    if at.None? {
      return Nothing;
    }
    r := ReadExtensions(lib, b, at.value);
  }

  // ---- HTTP ----

  function Ascii(s: string): Text
    requires forall i :: 0 <= i < |s| ==> s[i] < 128 as char
  {
    seq(|s|, i requires 0 <= i < |s| => s[i] as int)
  }

  function Methods(): seq<Text> {
    [Ascii("GET "), Ascii("POST "), Ascii("HEAD "), Ascii("PUT "), Ascii("PATCH "),
     Ascii("DELETE "), Ascii("OPTIONS "), Ascii("CONNECT "), Ascii("TRACE ")]
  }

  predicate MethodSeen(data: seq<byte>) {
    exists m :: m in Methods() && m <= data
  }

  predicate MethodPossible(data: seq<byte>) {
    exists m :: m in Methods() && data < m
  }

  function At(data: seq<byte>, pattern: seq<byte>, i: nat): bool {
    i + |pattern| <= |data| && data[i..i + |pattern|] == pattern
  }

  /** bytes.Index from position i on. */
  function IndexFrom(data: seq<byte>, pattern: seq<byte>, i: nat): (r: Option<nat>)
    ensures r.Some? ==> i <= r.value && At(data, pattern, r.value)
    ensures forall j :: i <= j && (r.None? || j < r.value) ==> !At(data, pattern, j)
    decreases |data| - i
  {
    if i + |pattern| > |data| then None
    else if At(data, pattern, i) then Some(i)
    else IndexFrom(data, pattern, i + 1)
  }

  /** bytes.Split at a separator. */
  function Lines(head: seq<byte>, separator: seq<byte>): (r: seq<Text>)
    requires separator != []
    ensures |r| >= 1
    decreases |head|
  {
    match IndexFrom(head, separator, 0)
    case None => [head]
    case Some(i) => [head[..i]] + Lines(head[i + |separator|..], separator)
  }

  /** The name inside a Host value, [] when the port is no number. */
  function HostName(lib: Strings, value: Text): Text {
    var host := lib.trimSpace(value);
    match lib.splitHostPort(host)
    case Some(h) => h
    case None =>
      var parts := Split(host, 58);
      if |parts| == 2 then if lib.isNumber(parts[1]) then parts[0] else [] else host
  }

  /** Whether HostName gave up on the value. */
  predicate BadPort(lib: Strings, value: Text) {
    var host := lib.trimSpace(value);
    lib.splitHostPort(host).None? && |Split(host, 58)| == 2 && !lib.isNumber(Split(host, 58)[1])
  }

  function HostValue(lib: Strings, value: Text): Probe {
    if BadPort(lib, value) then Nothing else Named(Safe(lib, HostName(lib, value)), HttpHost)
  }

  function HostHeader(lib: Strings, lines: seq<Text>): Probe {
    if lines == [] then Nothing
    else match IndexFrom(lines[0], [58], 0)
      case Some(i) =>
        if lib.equalFold(lines[0][..i], Ascii("host")) then HostValue(lib, lines[0][i + 1..])
        else HostHeader(lib, lines[1..])
      case None => HostHeader(lib, lines[1..])
  }

  function CRLF(): seq<byte> { [13, 10] }

  function ParseHttp(lib: Strings, data: seq<byte>): Probe {
    if !MethodSeen(data) then if MethodPossible(data) then NeedMore else Nothing
    else if |data| >= 8192 then Nothing
    else match IndexFrom(data, CRLF() + CRLF(), 0)
      case None => NeedMore
      case Some(end) => HostHeader(lib, Lines(data[..end], CRLF())[1..])
  }

  lemma NoMethod(methods: seq<Text>, data: seq<byte>)
    requires methods == Methods() && forall k :: 0 <= k < |methods| ==> !(methods[k] <= data)
    ensures !MethodSeen(data)
    ensures MethodPossible(data) <==> exists k :: 0 <= k < |methods| && data < methods[k]
  {
    hide Methods;
    if k :| 0 <= k < |methods| && data < methods[k] {
      assert methods[k] in Methods();
    }
  }

  method ParseHTTPHostname(lib: Strings, data: seq<byte>) returns (r: Probe)
    ensures r == ParseHttp(lib, data)
  {
    hide Ascii, HostValue;
    var methods := Methods();
    var matchesPrefix, methodSeen := false, false;
    var n := 0;
    while n < |methods| && !methodSeen
      invariant n <= |methods| && methods == Methods()
      invariant methodSeen ==> MethodSeen(data)
      invariant !methodSeen ==> forall k :: 0 <= k < n ==> !(methods[k] <= data)
      invariant matchesPrefix <==> exists k :: 0 <= k < n && data < methods[k]
      decreases |methods| - n, !methodSeen
    {
      var m := methods[n];
      assert m in methods;
      if m <= data {
        methodSeen := true;
      } else {
        if |data| < |m| && data == m[..|data|] {
          matchesPrefix := true;
        }
      }
      n := n + 1;
    }
    if !methodSeen {
      NoMethod(methods, data);
      return if matchesPrefix then NeedMore else Nothing;
    }
    if |data| >= 8192 {
      return Nothing;
    }
    var end := IndexFrom(data, CRLF() + CRLF(), 0);
    if end.None? {
      return NeedMore;
    }
    var lines := Lines(data[..end.value], CRLF());
    r := ReadHostHeader(lib, lines[1..]);
  }

  method ReadHostHeader(lib: Strings, lines: seq<Text>) returns (r: Probe)
    ensures r == HostHeader(lib, lines)
  {
    hide Ascii;
    for n := 0 to |lines|
      invariant HostHeader(lib, lines) == HostHeader(lib, lines[n..])
    {
      var colon := IndexFrom(lines[n], [58], 0);
      assert lines[n..][1..] == lines[n + 1..];
      if colon.Some? && lib.equalFold(lines[n][..colon.value], Ascii("host")) {
        var value := lines[n][colon.value + 1..];
        if BadPort(lib, value) {
          return Nothing;
        }
        var valid := SafeObservedHostname(lib, HostName(lib, value));
        return if valid != [] then Found(valid, HttpHost) else Nothing;
      }
    }
    return Nothing;
  }

  // ---- The probe ----

  function Parse(lib: Strings, data: seq<byte>): Probe {
    if data == [] then NeedMore
    else if data[0] == 0x16 then ParseTls(lib, data)
    else ParseHttp(lib, data)
  }

  /** hostnameObservingConn: what was read so far, and what was reported. */
  class ObservingConn {
    var probe: seq<byte>
    var done: bool
    var reported: seq<(Text, Source)>

    function Now(): Watch
      reads this
    {
      Watch(probe, done, reported)
    }

    constructor ()
      ensures Now() == Watch([], false, [])
    {
      probe, done, reported := [], false, [];
    }

    /** Read's bookkeeping for the bytes the connection delivered. */
    method Read(lib: Strings, chunk: seq<byte>)
      modifies this
      ensures Now() == Fed(lib, old(Now()), chunk)
    {
      hide ParseTls, ParseHttp;
      if |chunk| > 0 && !done {
        if |probe| + |chunk| > 8192 {
          done, probe := true, [];
        } else {
          probe := probe + chunk;
          var r: Probe;
          if probe[0] == 0x16 {
            r := ParseTLSClientHelloSNI(lib, probe);
          } else {
            r := ParseHTTPHostname(lib, probe);
          }
          if r.Found? {
            reported := reported + [(r.host, r.source)];
          }
          if !r.NeedMore? {
            done, probe := true, [];
          }
        }
      }
    }
  }

  datatype Watch = Watch(probe: seq<byte>, done: bool, reported: seq<(Text, Source)>)

  function Fed(lib: Strings, w: Watch, chunk: seq<byte>): Watch {
    if chunk == [] || w.done then w
    else if |w.probe| + |chunk| > 8192 then w.(done := true, probe := [])
    else
      var r := Parse(lib, w.probe + chunk);
      var reported := if r.Found? then w.reported + [(r.host, r.source)] else w.reported;
      if r.NeedMore? then Watch(w.probe + chunk, false, reported) else Watch([], true, reported)
  }

  function FedAll(lib: Strings, chunks: seq<seq<byte>>): Watch {
    if chunks == [] then Watch([], false, []) else Fed(lib, FedAll(lib, chunks[..|chunks| - 1]), chunks[|chunks| - 1])
  }

  function Flat(chunks: seq<seq<byte>>): seq<byte> {
    if chunks == [] then [] else Flat(chunks[..|chunks| - 1]) + chunks[|chunks| - 1]
  }

  // ---- What the probe promises ----

  lemma {:induction false} NameListValid(lib: Strings, n: seq<byte>)
    ensures NameList(lib, n).Found? ==> ValidName(NameList(lib, n).host)
    decreases |n|
  {
    hide ValidName;
    if |n| >= 3 && 3 + U16At(n, 1) <= |n| {
      NameListValid(lib, n[3 + U16At(n, 1)..]);
    }
  }

  lemma {:induction false} ExtensionsValid(lib: Strings, e: seq<byte>)
    ensures Extensions(lib, e).Found? ==> ValidName(Extensions(lib, e).host)
    decreases |e|
  {
    hide ValidName, NameList;
    if |e| >= 4 && 4 + U16At(e, 2) <= |e| {
      var n := e[4..4 + U16At(e, 2)];
      if |n| >= 2 {
        NameListValid(lib, n[2..]);
      }
      ExtensionsValid(lib, e[4 + U16At(e, 2)..]);
    }
  }

  lemma {:induction false} HostHeaderValid(lib: Strings, lines: seq<Text>)
    ensures HostHeader(lib, lines).Found? ==> ValidName(HostHeader(lib, lines).host)
  {
    hide ValidName, Ascii, IndexFrom;
    if lines != [] {
      HostHeaderValid(lib, lines[1..]);
    }
  }

  /** Whatever the string library does, every reported name has 3 to 253 bytes, a
      dot, and labels of lower-case letters, digits and inner hyphens only. */
  lemma ReportedIsValid(lib: Strings, data: seq<byte>)
    ensures Parse(lib, data).Found? ==> ValidName(Parse(lib, data).host)
  {
    hide ValidName, Extensions, HostHeader, Lines, IndexFrom, MethodSeen, MethodPossible;
    if data != [] && data[0] == 0x16 {
      if |data| >= 5 && |data| >= 5 + U16At(data, 3) {
        var b := data[5..5 + U16At(data, 3)];
        if |b| >= 4 && 4 + U24At(b, 1) <= |b| {
          var hello := b[4..4 + U24At(b, 1)];
          var at := ExtensionsAt(hello);
          if at.Some? {
            ExtensionsValid(lib, hello[at.value..]);
          }
        }
      }
    } else {
      var end := IndexFrom(data, CRLF() + CRLF(), 0);
      if end.Some? {
        HostHeaderValid(lib, Lines(data[..end.value], CRLF())[1..]);
      }
    }
  }

  lemma IndexStable(a: seq<byte>, b: seq<byte>, pattern: seq<byte>)
    requires IndexFrom(a, pattern, 0).Some?
    ensures IndexFrom(a + b, pattern, 0) == IndexFrom(a, pattern, 0)
  {
    var i := IndexFrom(a, pattern, 0).value;
    assert (a + b)[i..i + |pattern|] == a[i..i + |pattern|];
    assert At(a + b, pattern, i);
    forall j: nat | j < i ensures !At(a + b, pattern, j) {
      assert !At(a, pattern, j);
      assert (a + b)[j..j + |pattern|] == a[j..j + |pattern|];
    }
    var k := IndexFrom(a + b, pattern, 0);
  }

  lemma MethodStable(a: seq<byte>, b: seq<byte>)
    ensures MethodSeen(a) ==> MethodSeen(a + b)
    ensures !MethodSeen(a) && !MethodPossible(a) ==> !MethodSeen(a + b) && !MethodPossible(a + b)
  {
    hide Methods;
    if MethodSeen(a) {
      var m :| m in Methods() && m <= a;
      assert m <= a + b;
    }
    if MethodSeen(a + b) {
      var m :| m in Methods() && m <= a + b;
      if |m| <= |a| {
        assert m == (a + b)[..|m|] == a[..|m|];
      } else {
        assert a == (a + b)[..|a|] == m[..|a|];
        assert a < m;
      }
    }
    if MethodPossible(a + b) {
      var m :| m in Methods() && a + b < m;
      assert a == (a + b)[..|a|] == m[..|a|];
      assert |a| < |m|;
      assert a < m;
    }
  }

  /** A decision on a prefix stays the decision for the whole stream. */
  lemma DecisionIsStable(lib: Strings, a: seq<byte>, b: seq<byte>)
    requires !Parse(lib, a).NeedMore? && |a + b| < 8192
    ensures Parse(lib, a + b) == Parse(lib, a)
  {
    hide Handshake, HostHeader, Lines, MethodSeen, MethodPossible, IndexFrom;
    if a[0] == 0x16 {
      if |a| >= 5 && |a| >= 5 + U16At(a, 3) {
        assert (a + b)[5..5 + U16At(a, 3)] == a[5..5 + U16At(a, 3)];
      }
    } else {
      MethodStable(a, b);
      if MethodSeen(a) {
        IndexStable(a, b, CRLF() + CRLF());
        var end := IndexFrom(a, CRLF() + CRLF(), 0).value;
        assert (a + b)[..end] == a[..end];
      }
    }
  }

  /** For a stream under 8192 bytes the chunks do not matter: what is reported is
      what parsing the whole stream reports, and probing stops just when the whole
      stream is decisive. */
  lemma {:induction false} ChunkingIrrelevant(lib: Strings, chunks: seq<seq<byte>>)
    requires |Flat(chunks)| < 8192
    ensures var w, r := FedAll(lib, chunks), Parse(lib, Flat(chunks));
            && w.reported == (if r.Found? then [(r.host, r.source)] else [])
            && (w.done <==> !r.NeedMore?)
            && (!w.done ==> w.probe == Flat(chunks))
  {
    hide Parse;
    if chunks == [] {
      NothingRead(lib);
    } else {
      var before, chunk := chunks[..|chunks| - 1], chunks[|chunks| - 1];
      ChunkingIrrelevant(lib, before);
      if FedAll(lib, before).done {
        DecisionIsStable(lib, Flat(before), chunk);
      } else if chunk == [] {
        assert Flat(before) + chunk == Flat(before);
      }
    }
  }

  lemma NothingRead(lib: Strings)
    ensures Parse(lib, []) == NeedMore
  {
  }

  /** From 8192 bytes on the chunks do matter: a complete HTTP request followed by
      a body up to that limit is reported in two reads and missed in one. */
  lemma ChunkingMattersAtLimit(lib: Strings, request: seq<byte>, body: seq<byte>)
    requires request != [] && request[0] != 0x16 && Parse(lib, request).Found? && |request + body| == 8192
    ensures FedAll(lib, [request, body]).reported == [(Parse(lib, request).host, Parse(lib, request).source)]
    ensures FedAll(lib, [request + body]).reported == []
  {
    hide HostHeader, Lines, IndexFrom, MethodPossible;
    assert [request, body][..1] == [request] && [request][..0] == [] && [request + body][..0] == [];
    assert FedAll(lib, []) == Watch([], false, []);
    assert [] + request == request && [] + (request + body) == request + body;
    assert FedAll(lib, [request]) == Watch([], true, [(Parse(lib, request).host, Parse(lib, request).source)]);
    MethodStable(request, body);
  }

  // ---- Streams of any length ----

  function ReportOf(r: Probe): seq<(Text, Source)> {
    if r.Found? then [(r.host, r.source)] else []
  }

  /** A found name stays found up to the limit itself: at 8192 bytes an HTTP request
      is given up, so that only a TLS record can be found there. */
  lemma FoundIsStable(lib: Strings, a: seq<byte>, b: seq<byte>)
    requires !Parse(lib, a).NeedMore? && Parse(lib, a + b).Found? && |a + b| <= 8192
    ensures Parse(lib, a) == Parse(lib, a + b)
  {
    if a[0] == 0x16 {
      TlsIsStable(lib, a, b);
    } else {
      assert |a + b| < 8192 by { HttpBelowLimit(lib, a + b); }
      DecisionIsStable(lib, a, b);
    }
  }

  lemma HttpBelowLimit(lib: Strings, data: seq<byte>)
    requires data != [] && data[0] != 0x16 && Parse(lib, data).Found?
    ensures |data| < 8192
  {
    hide HostHeader, Lines, IndexFrom, MethodSeen, MethodPossible;
  }

  lemma TlsIsStable(lib: Strings, a: seq<byte>, b: seq<byte>)
    requires a != [] && a[0] == 0x16 && !Parse(lib, a).NeedMore?
    ensures Parse(lib, a + b) == Parse(lib, a)
  {
    hide Handshake, ParseHttp;
    if |a| >= 5 && |a| >= 5 + U16At(a, 3) {
      assert (a + b)[5..5 + U16At(a, 3)] == a[5..5 + U16At(a, 3)];
    }
  }

  /** What a watch has done: it holds the whole undecided stream, or stopped at a
      decisive prefix and reported that, or gave up beyond the limit. */
  ghost predicate WatchIs(lib: Strings, s: seq<byte>, w: Watch) {
    if !w.done then |s| <= 8192 && w.probe == s && Parse(lib, s).NeedMore? && w.reported == []
    else || (exists n :: 0 <= n <= |s| && n <= 8192 && StopsAt(lib, s[..n], w.reported))
         || (|s| > 8192 && w.reported == [])
  }

  ghost predicate StopsAt(lib: Strings, a: seq<byte>, reported: seq<(Text, Source)>) {
    !Parse(lib, a).NeedMore? && reported == ReportOf(Parse(lib, a))
  }

  lemma {:induction false} WatchedStream(lib: Strings, chunks: seq<seq<byte>>)
    ensures WatchIs(lib, Flat(chunks), FedAll(lib, chunks))
  {
    hide Parse;
    if chunks == [] {
      NothingRead(lib);
    } else {
      var before, chunk := chunks[..|chunks| - 1], chunks[|chunks| - 1];
      WatchedStream(lib, before);
      var s, w, all := Flat(before), FedAll(lib, before), Flat(chunks);
      if w.done {
        if n :| 0 <= n <= |s| && n <= 8192 && StopsAt(lib, s[..n], w.reported) {
          assert all[..n] == s[..n];
        }
      } else if chunk == [] {
        assert all == s;
      } else if |all| <= 8192 {
        assert all[..|all|] == all;
      }
    }
  }

  /** Some prefix within the limit shows a name. */
  ghost predicate SomePrefixFound(lib: Strings, s: seq<byte>) {
    exists n :: 0 <= n <= |s| && n <= 8192 && Parse(lib, s[..n]).Found?
  }

  /** Two ways of cutting the stream lead to different reports. */
  ghost predicate ChunkingShows(lib: Strings, s: seq<byte>) {
    exists c, d :: Flat(c) == s && Flat(d) == s && FedAll(lib, c).reported != FedAll(lib, d).reported
  }

  lemma ReportedIsPrefix(lib: Strings, chunks: seq<seq<byte>>)
    ensures var s, r := Flat(chunks), FedAll(lib, chunks).reported;
            r == [] || exists n :: 0 <= n <= |s| && n <= 8192 && Parse(lib, s[..n]).Found? && r == ReportOf(Parse(lib, s[..n]))
  {
    WatchedStream(lib, chunks);
    hide Parse, FedAll, Flat;
    var s, w := Flat(chunks), FedAll(lib, chunks);
    if w.done && w.reported != [] {
      var n :| 0 <= n <= |s| && n <= 8192 && StopsAt(lib, s[..n], w.reported);
      assert Parse(lib, s[..n]).Found? && w.reported == ReportOf(Parse(lib, s[..n]));
    }
  }

  /** A stream within the limit whose whole shows a name: every cutting reports it. */
  lemma WholeIsReported(lib: Strings, chunks: seq<seq<byte>>)
    requires |Flat(chunks)| <= 8192 && Parse(lib, Flat(chunks)).Found?
    ensures FedAll(lib, chunks).reported == ReportOf(Parse(lib, Flat(chunks)))
  {
    WatchedStream(lib, chunks);
    hide Parse, FedAll, Flat;
    var s, w := Flat(chunks), FedAll(lib, chunks);
    var n :| 0 <= n <= |s| && n <= 8192 && StopsAt(lib, s[..n], w.reported);
    assert s[..n] + s[n..] == s;
    FoundIsStable(lib, s[..n], s[n..]);
  }

  lemma CutOnce(lib: Strings, s: seq<byte>, n: nat)
    requires n <= |s| && n <= 8192 && Parse(lib, s[..n]).Found?
    ensures Flat([s[..n], s[n..]]) == s
    ensures FedAll(lib, [s[..n], s[n..]]).reported == ReportOf(Parse(lib, s[..n]))
  {
    var c := [s[..n], s[n..]];
    assert c[..1] == [s[..n]] && [s[..n]][..0] == [];
    assert s[..n] + s[n..] == s;
    NothingRead(lib);
    hide Parse;
    assert FedAll(lib, []) == Watch([], false, []);
    assert [] + s[..n] == s[..n];
    assert Flat([s[..n]]) == s[..n];
    assert FedAll(lib, [s[..n]]) == Watch([], true, ReportOf(Parse(lib, s[..n])));
  }

  lemma NotCut(lib: Strings, s: seq<byte>)
    ensures Flat([s]) == s
    ensures FedAll(lib, [s]).reported == if |s| > 8192 then [] else ReportOf(Parse(lib, s))
  {
    NothingRead(lib);
    hide Parse;
    assert [s][..0] == [];
    assert FedAll(lib, []) == Watch([], false, []);
    assert [] + s == s;
  }

  /** The exact condition, for streams of any length: what is reported depends on how
      the stream is cut if and only if some prefix within the limit shows a name and
      the stream in one read does not. Below the limit that never happens. */
  lemma ChunkingShowsIff(lib: Strings, s: seq<byte>)
    ensures ChunkingShows(lib, s) <==> SomePrefixFound(lib, s) && (|s| > 8192 || !Parse(lib, s).Found?)
    ensures |s| < 8192 ==> !ChunkingShows(lib, s)
  {
    hide Parse, FedAll, Flat;
    NotCut(lib, s);
    if SomePrefixFound(lib, s) && (|s| > 8192 || !Parse(lib, s).Found?) {
      var n :| 0 <= n <= |s| && n <= 8192 && Parse(lib, s[..n]).Found?;
      CutOnce(lib, s, n);
      assert FedAll(lib, [s]).reported == [];
    }
    if ChunkingShows(lib, s) {
      var c, d :| Flat(c) == s && Flat(d) == s && FedAll(lib, c).reported != FedAll(lib, d).reported;
      ReportedIsPrefix(lib, c);
      ReportedIsPrefix(lib, d);
      if |s| <= 8192 && Parse(lib, s).Found? {
        WholeIsReported(lib, c);
        WholeIsReported(lib, d);
      }
    }
    if |s| < 8192 && SomePrefixFound(lib, s) {
      var n :| 0 <= n <= |s| && n <= 8192 && Parse(lib, s[..n]).Found?;
      assert s[..n] + s[n..] == s;
      DecisionIsStable(lib, s[..n], s[n..]);
    }
  }

  /** Where cutting matters, it only decides whether there is a report: two reports
      are never of different names. */
  lemma OneName(lib: Strings, c: seq<seq<byte>>, d: seq<seq<byte>>)
    requires Flat(c) == Flat(d) && FedAll(lib, c).reported != [] && FedAll(lib, d).reported != []
    ensures FedAll(lib, c).reported == FedAll(lib, d).reported && |FedAll(lib, c).reported| == 1
  {
    ReportedIsPrefix(lib, c);
    ReportedIsPrefix(lib, d);
    hide Parse, FedAll, Flat;
    var s := Flat(c);
    var n :| 0 <= n <= |s| && n <= 8192 && Parse(lib, s[..n]).Found? && FedAll(lib, c).reported == ReportOf(Parse(lib, s[..n]));
    var m :| 0 <= m <= |s| && m <= 8192 && Parse(lib, s[..m]).Found? && FedAll(lib, d).reported == ReportOf(Parse(lib, s[..m]));
    if n <= m {
      assert s[..n] + s[n..m] == s[..m];
      FoundIsStable(lib, s[..n], s[n..m]);
    } else {
      assert s[..m] + s[m..n] == s[..n];
      FoundIsStable(lib, s[..m], s[m..n]);
    }
  }
}
