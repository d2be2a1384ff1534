/** The HTTP/1.x requests that show a name and the names that are shown, written from
    the format's side (RFC 9112 sections 3 and 5, RFC 1123 section 2.1), independent of
    the parser. */
module HttpPrint {
  import opened Bytes
  import opened Addresses
  import opened Hostname
  import HelloPrint

  // ---- Joining and splitting ----

  function Joined(parts: seq<Text>, c: byte): Text
    requires parts != []
  {
    if |parts| == 1 then parts[0] else parts[0] + [c] + Joined(parts[1..], c)
  }

  predicate Without(parts: seq<Text>, c: byte) {
    forall i :: 0 <= i < |parts| ==> c !in parts[i]
  }

  lemma SplitCons(s: Text, c: byte, tail: Text)
    requires c !in s
    ensures Split(s + [c] + tail, c) == [s] + Split(tail, c)
  {
    if s == [] {
      assert s + [c] + tail == [c] + tail && ([c] + tail)[1..] == tail;
    } else {
      SplitCons(s[1..], c, tail);
      assert (s + [c] + tail)[1..] == s[1..] + [c] + tail;
      assert s == [s[0]] + s[1..];
    }
  }

  lemma {:induction false} SplitNone(s: Text, c: byte)
    requires c !in s
    ensures Split(s, c) == [s]
  {
    if s != [] {
      SplitNone(s[1..], c);
      assert s == [s[0]] + s[1..];
    }
  }

  lemma {:induction false} SplitOfJoined(parts: seq<Text>, c: byte)
    requires parts != [] && Without(parts, c)
    ensures Split(Joined(parts, c), c) == parts
  {
    hide Split;
    if |parts| == 1 {
      SplitNone(parts[0], c);
    } else {
      SplitOfJoined(parts[1..], c);
      SplitCons(parts[0], c, Joined(parts[1..], c));
    }
  }

  lemma {:induction false} JoinedOfSplit(s: Text, c: byte)
    ensures Joined(Split(s, c), c) == s && Without(Split(s, c), c)
  {
    if s != [] {
      JoinedOfSplit(s[1..], c);
      var rest := Split(s[1..], c);
      if s[0] == c {
        assert ([[]] + rest)[1..] == rest;
        assert s == [] + [c] + s[1..];
      } else {
        JoinedFirst(rest, s[0], c);
        assert s == [s[0]] + s[1..];
      }
    }
  }

  lemma JoinedFirst(rest: seq<Text>, b: byte, c: byte)
    requires rest != [] && Without(rest, c) && b != c
    ensures var more := [[b] + rest[0]] + rest[1..];
            Joined(more, c) == [b] + Joined(rest, c) && Without(more, c)
  {
    var more := [[b] + rest[0]] + rest[1..];
    assert more[1..] == rest[1..];
    if |rest| > 1 {
      assert [b] + rest[0] + [c] + Joined(rest[1..], c) == [b] + (rest[0] + [c] + Joined(rest[1..], c));
    }
  }

  // ---- Names ----

  /** 1 to 63 letters in lower case, digits and hyphens, none of these at an end. */
  predicate Label(l: Text) {
    && 1 <= |l| <= 63 && l[0] != '-' as int && l[|l| - 1] != '-' as int
    && forall i :: 0 <= i < |l| ==>
         'a' as int <= l[i] <= 'z' as int || '0' as int <= l[i] <= '9' as int || l[i] == '-' as int
  }

  /** Two labels or more with dots in between, 253 bytes at most. */
  ghost predicate DottedName(host: Text) {
    3 <= |host| <= 253 && exists labels: seq<Text> ::
      |labels| >= 2 && host == Joined(labels, '.' as int) && forall i :: 0 <= i < |labels| ==> Label(labels[i])
  }

  lemma LabelsWithout(labels: seq<Text>)
    requires forall i :: 0 <= i < |labels| ==> Label(labels[i])
    ensures Without(labels, '.' as int)
  {
  }

  lemma {:induction false} JoinedHas(parts: seq<Text>, c: byte)
    requires |parts| >= 2
    ensures c in Joined(parts, c)
  {
    assert Joined(parts, c)[|parts[0]|] == c;
  }

  lemma ValidIffDotted(host: Text)
    ensures ValidName(host) <==> DottedName(host)
  {
    hide Split, Joined;
    if ValidName(host) {
      var labels := Split(host, 46);
      JoinedOfSplit(host, 46);
      if |labels| == 1 {
        OnePart(labels, 46);
      }
      assert forall i :: 0 <= i < |labels| ==> labels[i] in labels && Label(labels[i]);
    }
    if DottedName(host) {
      var labels: seq<Text> :| |labels| >= 2 && host == Joined(labels, '.' as int) && forall i :: 0 <= i < |labels| ==> Label(labels[i]);
      LabelsWithout(labels);
      SplitOfJoined(labels, 46);
      JoinedHas(labels, 46);
    }
  }

  lemma OnePart(parts: seq<Text>, c: byte)
    requires |parts| == 1
    ensures Joined(parts, c) == parts[0]
  {
  }

  /** Trimmed, without one final dot, in lower case. */
  ghost predicate Shown(lib: Strings, input: Text, host: Text) {
    var t := lib.trimSpace(input);
    && DottedName(host) && !lib.isIP(host)
    && ((host == lib.lower(t) && (t == [] || t[|t| - 1] != '.' as int)) || (exists u :: t == u + [46] && host == lib.lower(u)))
  }

  /** A name is shown for an input exactly when the input has that form. */
  lemma SafeIff(lib: Strings, input: Text, host: Text)
    requires host != []
    ensures Safe(lib, input) == host <==> Shown(lib, input, host)
  {
    hide ValidName, DottedName;
    ValidIffDotted(Normalized(lib, input));
    ValidIffDotted(host);
    var t := lib.trimSpace(input);
    if t != [] && t[|t| - 1] == 46 {
      assert t == t[..|t| - 1] + [46];
    }
    if u :| t == u + [46] && host == lib.lower(u) {
      assert u == t[..|t| - 1];
    }
  }

  // ---- Requests ----

  /** s stands in d from i on, as ASCII. */
  predicate Reads(d: Text, i: nat, s: string) {
    i + |s| <= |d| && forall k :: 0 <= k < |s| ==> d[i + k] == s[k] as int
  }

  predicate BeginsRequest(d: Text) {
    || Reads(d, 0, "GET ") || Reads(d, 0, "POST ") || Reads(d, 0, "HEAD ") || Reads(d, 0, "PUT ") || Reads(d, 0, "PATCH ")
    || Reads(d, 0, "DELETE ") || Reads(d, 0, "OPTIONS ") || Reads(d, 0, "CONNECT ") || Reads(d, 0, "TRACE ")
  }

  /** A header: its lines, the request line first, without line ends in them. */
  function JoinedLines(lines: seq<Text>): Text
    requires lines != []
  {
    if |lines| == 1 then lines[0] else lines[0] + [13, 10] + JoinedLines(lines[1..])
  }

  predicate OneLine(l: Text) {
    forall i :: 0 <= i < |l| - 1 ==> !(l[i] == 13 && l[i + 1] == 10)
  }

  /** The line is a Host field with this value. */
  ghost predicate IsHost(lib: Strings, l: Text, value: Text) {
    exists field :: l == field + [58] + value && 58 !in field && lib.equalFold(field, Host())
  }

  function Host(): Text {
    ['h' as int, 'o' as int, 's' as int, 't' as int]
  }

  /** The name in a Host value: without its port, if there is one. */
  ghost predicate NameIn(lib: Strings, value: Text, name: Text) {
    var v := lib.trimSpace(value);
    match lib.splitHostPort(v)
    case Some(h) => name == h
    case None =>
      if exists a, b :: OneColon(v, a, b) then exists b :: OneColon(v, name, b) && lib.isNumber(b)
      else name == v
  }

  predicate OneColon(v: Text, a: Text, b: Text) {
    v == a + [58] + b && 58 !in a && 58 !in b
  }

  /** A request of less than 8192 bytes so far whose first Host line is line k. */
  ghost predicate Request(lib: Strings, d: Text, lines: seq<Text>, k: nat, value: Text) {
    && |d| < 8192 && BeginsRequest(d) && 1 <= k < |lines|
    && (forall i :: 0 <= i < |lines| ==> OneLine(lines[i]))
    && JoinedLines(lines) + [13, 10, 13, 10] <= d
    && (forall i :: 0 <= i < |JoinedLines(lines)| ==> !Reads(d, i, "\r\n\r\n"))
    && IsHost(lib, lines[k], value)
    && (forall i, v :: 1 <= i < k ==> !IsHost(lib, lines[i], v))
  }

  lemma CrlfIs()
    ensures CRLF() == [13, 10] && CRLF() + CRLF() == [13, 10, 13, 10] && Ascii("host") == Host()
  {
  }

  lemma ReadsIff(d: Text, i: nat)
    ensures Reads(d, i, "\r\n\r\n") <==> At(d, [13, 10, 13, 10], i)
  {
    if i + 4 <= |d| {
      assert d[i..i + 4] == [d[i], d[i + 1], d[i + 2], d[i + 3]];
      var s := "\r\n\r\n";
      assert s[0] as int == 13 && s[1] as int == 10 && s[2] as int == 13 && s[3] as int == 10;
      if d[i] == 13 && d[i + 1] == 10 && d[i + 2] == 13 && d[i + 3] == 10 {
        assert forall k :: 0 <= k < |s| ==> d[i + k] == s[k] as int;
      }
    }
  }

  lemma AtTwo(d: Text, i: nat)
    ensures At(d, [13, 10], i) <==> i + 2 <= |d| && d[i] == 13 && d[i + 1] == 10
  {
    if i + 2 <= |d| {
      assert d[i..i + 2] == [d[i], d[i + 1]];
    }
  }

  lemma AtColon(d: Text, i: nat)
    ensures At(d, [58], i) <==> i < |d| && d[i] == 58
  {
    if i < |d| {
      assert d[i..i + 1] == [d[i]];
    }
  }

  lemma PrefixIff(d: Text, s: string)
    requires forall i :: 0 <= i < |s| ==> s[i] < 128 as char
    ensures Reads(d, 0, s) <==> Ascii(s) <= d
  {
  }

  lemma BeginsIff(d: Text)
    ensures BeginsRequest(d) <==> MethodSeen(d)
  {
    PrefixIff(d, "GET ");
    PrefixIff(d, "POST ");
    PrefixIff(d, "HEAD ");
    PrefixIff(d, "PUT ");
    PrefixIff(d, "PATCH ");
    PrefixIff(d, "DELETE ");
    PrefixIff(d, "OPTIONS ");
    PrefixIff(d, "CONNECT ");
    PrefixIff(d, "TRACE ");
    hide Reads, Ascii;
    SeenIff(d);
    hide MethodSeen;
  }

  lemma SeenIff(d: Text)
    ensures MethodSeen(d) <==>
            || Ascii("GET ") <= d || Ascii("POST ") <= d || Ascii("HEAD ") <= d || Ascii("PUT ") <= d || Ascii("PATCH ") <= d
            || Ascii("DELETE ") <= d || Ascii("OPTIONS ") <= d || Ascii("CONNECT ") <= d || Ascii("TRACE ") <= d
  {
    hide Ascii;
    var m := Methods();
    assert |m| == 9;
    assert m[0] in m && m[1] in m && m[2] in m && m[3] in m && m[4] in m && m[5] in m && m[6] in m && m[7] in m && m[8] in m;
  }

  // ---- Lines ----

  lemma LineEnd(l: Text, tail: Text)
    requires OneLine(l)
    ensures IndexFrom(l + [13, 10] + tail, [13, 10], 0) == Some(|l|)
  {
    hide At;
    var d := l + [13, 10] + tail;
    AtTwo(d, |l|);
    var end := IndexFrom(d, [13, 10], 0);
    if end.Some? && end.value < |l| {
      AtTwo(d, end.value);
    }
  }

  lemma NoLineEnd(l: Text)
    ensures OneLine(l) <==> IndexFrom(l, [13, 10], 0) == None
  {
    hide At;
    forall j: nat ensures At(l, [13, 10], j) <==> j + 2 <= |l| && l[j] == 13 && l[j + 1] == 10 {
      AtTwo(l, j);
    }
    var end := IndexFrom(l, [13, 10], 0);
    if end.Some? {
      AtTwo(l, end.value);
      assert l[end.value] == 13 && l[end.value + 1] == 10;
    } else {
      forall i | 0 <= i < |l| - 1 ensures !(l[i] == 13 && l[i + 1] == 10) {
        assert !At(l, [13, 10], i);
      }
    }
  }

  lemma LinesUnfold(head: Text)
    ensures Lines(head, [13, 10]) ==
            match IndexFrom(head, [13, 10], 0)
            case None => [head]
            case Some(i) => [head[..i]] + Lines(head[i + 2..], [13, 10])
  {
  }

  lemma {:induction false} LinesOfJoined(lines: seq<Text>)
    requires lines != [] && forall i :: 0 <= i < |lines| ==> OneLine(lines[i])
    ensures Lines(JoinedLines(lines), [13, 10]) == lines
  {
    hide Lines, IndexFrom, OneLine;
    var head := JoinedLines(lines);
    LinesUnfold(head);
    if |lines| == 1 {
      NoLineEnd(head);
    } else {
      var rest := JoinedLines(lines[1..]);
      LinesOfJoined(lines[1..]);
      LineEnd(lines[0], rest);
      assert head[|lines[0]| + 2..] == rest && head[..|lines[0]|] == lines[0];
      assert lines == [lines[0]] + lines[1..];
    }
  }

  lemma {:induction false} JoinedOfLines(head: Text)
    ensures var lines := Lines(head, [13, 10]);
            JoinedLines(lines) == head && forall i :: 0 <= i < |lines| ==> OneLine(lines[i])
    decreases |head|
  {
    hide Lines, OneLine;
    LinesUnfold(head);
    match IndexFrom(head, [13, 10], 0)
    case None => NoLineEnd(head);
    case Some(i) =>
      var rest := Lines(head[i + 2..], [13, 10]);
      JoinedOfLines(head[i + 2..]);
      FirstLine(head, i);
      assert ([head[..i]] + rest)[1..] == rest;
      assert head == head[..i] + [13, 10] + head[i + 2..];
  }

  lemma FirstLine(head: Text, i: nat)
    requires IndexFrom(head, [13, 10], 0) == Some(i)
    ensures OneLine(head[..i]) && i + 2 <= |head| && head[i..i + 2] == [13, 10]
  {
    hide At;
    AtTwo(head, i);
    assert head[i..i + 2] == [head[i], head[i + 1]];
    forall j | 0 <= j < i - 1 ensures !(head[j] == 13 && head[j + 1] == 10) {
      AtTwo(head, j);
    }
  }

  // ---- The Host line ----

  lemma ColonAt(l: Text, field: Text, value: Text)
    requires l == field + [58] + value && 58 !in field
    ensures IndexFrom(l, [58], 0) == Some(|field|) && l[..|field|] == field && l[|field| + 1..] == value
  {
    hide At;
    AtColon(l, |field|);
    forall j | 0 <= j < |field| ensures !At(l, [58], j) {
      assert l[j] == field[j] && field[j] in field;
      AtColon(l, j);
    }
  }

  lemma ColonSplits(l: Text, i: nat)
    requires IndexFrom(l, [58], 0) == Some(i)
    ensures i < |l| && l == l[..i] + [58] + l[i + 1..] && 58 !in l[..i]
  {
    hide At;
    AtColon(l, i);
    forall j | 0 <= j < i ensures l[j] != 58 {
      AtColon(l, j);
    }
  }

  lemma IsHostIff(lib: Strings, l: Text, value: Text)
    ensures IsHost(lib, l, value) <==>
            match IndexFrom(l, [58], 0)
            case None => false
            case Some(i) => lib.equalFold(l[..i], Host()) && value == l[i + 1..]
  {
    hide IndexFrom;
    var at := IndexFrom(l, [58], 0);
    if at.Some? {
      ColonSplits(l, at.value);
    }
    if field :| l == field + [58] + value && 58 !in field && lib.equalFold(field, Host()) {
      ColonAt(l, field, value);
    }
  }

  lemma {:induction false} FirstHost(lib: Strings, lines: seq<Text>, k: nat, value: Text)
    requires k < |lines| && IsHost(lib, lines[k], value) && forall i, v :: 0 <= i < k ==> !IsHost(lib, lines[i], v)
    ensures HostHeader(lib, lines) == HostValue(lib, value)
  {
    hide IsHost, IndexFrom, HostValue, Ascii;
    CrlfIs();
    var at := IndexFrom(lines[0], [58], 0);
    IsHostIff(lib, lines[0], if at.Some? then lines[0][at.value + 1..] else []);
    if k == 0 {
      IsHostIff(lib, lines[0], value);
    } else {
      FirstHost(lib, lines[1..], k - 1, value);
    }
  }

  lemma {:induction false} HostFound(lib: Strings, lines: seq<Text>) returns (k: nat, value: Text)
    requires HostHeader(lib, lines).Found?
    ensures k < |lines| && IsHost(lib, lines[k], value) && forall i, v :: 0 <= i < k ==> !IsHost(lib, lines[i], v)
  {
    hide IsHost, IndexFrom, HostValue, Ascii;
    CrlfIs();
    var at := IndexFrom(lines[0], [58], 0);
    if at.Some? && lib.equalFold(lines[0][..at.value], Host()) {
      k, value := 0, lines[0][at.value + 1..];
      IsHostIff(lib, lines[0], value);
    } else {
      forall v ensures !IsHost(lib, lines[0], v) {
        IsHostIff(lib, lines[0], v);
      }
      var rest := lines[1..];
      k, value := HostFound(lib, rest);
      k := k + 1;
      assert forall i :: 1 <= i < |lines| ==> lines[i] == rest[i - 1];
    }
  }

  lemma OneColonIff(v: Text)
    ensures |Split(v, 58)| == 2 <==> exists a, b :: OneColon(v, a, b)
    ensures forall a, b :: OneColon(v, a, b) ==> Split(v, 58) == [a, b]
  {
    hide Split;
    JoinedOfSplit(v, 58);
    var parts := Split(v, 58);
    if |parts| == 2 {
      OnePart(parts[1..], 58);
      assert OneColon(v, parts[0], parts[1]);
    }
    forall a, b | OneColon(v, a, b) ensures Split(v, 58) == [a, b] {
      SplitCons(a, 58, b);
      SplitNone(b, 58);
    }
  }

  lemma ValueIff(lib: Strings, value: Text, host: Text)
    ensures host != [] ==>
              (HostValue(lib, value) == Found(host, HttpHost) <==> exists name :: NameIn(lib, value, name) && Safe(lib, name) == host)
    ensures HostValue(lib, value).Found? ==> HostValue(lib, value).host != []
  {
    hide Split, Safe, OneColon;
    var v := lib.trimSpace(value);
    OneColonIff(v);
    NameFound(lib, value);
    hide NameIn, HostName;
  }

  /** The name is the one the code takes, unless its port is bad, when there is none. */
  lemma NameFound(lib: Strings, value: Text)
    ensures forall name :: NameIn(lib, value, name) <==> !BadPort(lib, value) && name == HostName(lib, value)
  {
    hide Split, OneColon;
    var v := lib.trimSpace(value);
    OneColonIff(v);
    if a, b :| OneColon(v, a, b) {
      assert Split(v, 58) == [a, b];
    }
  }

  // ---- The whole ----

  lemma NoRecord(d: Text)
    requires BeginsRequest(d)
    ensures d != [] && d[0] != 0x16
  {
    assert "GET "[0] as int > 64 && "POST "[0] as int > 64 && "HEAD "[0] as int > 64 && "PUT "[0] as int > 64 && "PATCH "[0] as int > 64;
    assert "DELETE "[0] as int > 64 && "OPTIONS "[0] as int > 64 && "CONNECT "[0] as int > 64 && "TRACE "[0] as int > 64;
    assert d[0] == d[0 + 0];
  }

  lemma FirstEnd(d: Text, head: Text)
    requires head + [13, 10, 13, 10] <= d && forall i :: 0 <= i < |head| ==> !Reads(d, i, "\r\n\r\n")
    ensures IndexFrom(d, [13, 10, 13, 10], 0) == Some(|head|) && d[..|head|] == head
  {
    hide Reads;
    forall i: nat ensures Reads(d, i, "\r\n\r\n") <==> At(d, [13, 10, 13, 10], i) {
      ReadsIff(d, i);
    }
    assert At(d, [13, 10, 13, 10], |head|) by {
      assert d[|head|..|head| + 4] == (head + [13, 10, 13, 10])[|head|..];
    }
    hide At;
  }

  lemma PrefixGrows(d: Text, end: nat, p: Text)
    requires At(d, p, end)
    ensures end + |p| <= |d| && d[..end] + p <= d
  {
    assert d[..end] + p == d[..end + |p|];
  }

  lemma EndFirst(d: Text, end: nat)
    requires IndexFrom(d, [13, 10, 13, 10], 0) == Some(end)
    ensures end + 4 <= |d| && d[..end] + [13, 10, 13, 10] <= d && forall i :: 0 <= i < end ==> !Reads(d, i, "\r\n\r\n")
  {
    hide Reads, IndexFrom, At;
    PrefixGrows(d, end, [13, 10, 13, 10]);
    forall i | 0 <= i < end ensures !Reads(d, i, "\r\n\r\n") {
      ReadsIff(d, i);
    }
  }

  lemma RequestRead(lib: Strings, d: Text, lines: seq<Text>, k: nat, value: Text)
    requires Request(lib, d, lines, k, value)
    ensures Parse(lib, d) == HostValue(lib, value)
  {
    NoRecord(d);
    BeginsIff(d);
    CrlfIs();
    FirstEnd(d, JoinedLines(lines));
    LinesOfJoined(lines);
    hide Lines, IndexFrom, JoinedLines, IsHost, BeginsRequest, MethodSeen, MethodPossible, HostHeader, HostValue, Reads, OneLine;
    assert forall i :: 0 <= i < |lines| - 1 ==> lines[1..][i] == lines[i + 1];
    FirstHost(lib, lines[1..], k - 1, value);
  }

  lemma RequestParts(lib: Strings, d: Text) returns (end: nat)
    requires Parse(lib, d).Found? && Parse(lib, d).source.HttpHost?
    ensures MethodSeen(d) && |d| < 8192 && IndexFrom(d, [13, 10, 13, 10], 0) == Some(end)
    ensures Parse(lib, d) == HostHeader(lib, Lines(d[..end], [13, 10])[1..])
  {
    hide MethodSeen, MethodPossible, HostHeader, IndexFrom, Lines;
    CrlfIs();
    if d[0] == 0x16 {
      var h := HelloPrint.HelloSpelled(lib, d);
    }
    hide ParseTls;
    end := IndexFrom(d, [13, 10, 13, 10], 0).value;
  }

  lemma RequestSpelled(lib: Strings, d: Text) returns (lines: seq<Text>, k: nat, value: Text)
    requires Parse(lib, d).Found? && Parse(lib, d).source.HttpHost?
    ensures Request(lib, d, lines, k, value)
  {
    var end := RequestParts(lib, d);
    hide Parse, HostHeader, Lines, IndexFrom, IsHost, MethodSeen, Reads, OneLine, JoinedLines;
    BeginsIff(d);
    EndFirst(d, end);
    lines := Lines(d[..end], [13, 10]);
    JoinedOfLines(d[..end]);
    k, value := HostFound(lib, lines[1..]);
    k := k + 1;
    assert forall i :: 1 <= i < |lines| ==> lines[i] == lines[1..][i - 1];
    hide BeginsRequest;
  }

  /** The HTTP side shows a name exactly for these byte strings: the name in the value of
      the first Host line, if it is a safe one. */
  lemma HostFoundIff(lib: Strings, d: Text, host: Text)
    ensures Parse(lib, d) == Found(host, HttpHost) <==>
            host != [] && exists lines, k, value, name ::
              Request(lib, d, lines, k, value) && NameIn(lib, value, name) && Safe(lib, name) == host
  {
    hide Parse, Request, NameIn, Safe, HostValue;
    if Parse(lib, d) == Found(host, HttpHost) {
      var lines, k, value := RequestSpelled(lib, d);
      RequestRead(lib, d, lines, k, value);
      ValueIff(lib, value, host);
    }
    if host != [] {
      forall lines, k, value, name | Request(lib, d, lines, k, value) && NameIn(lib, value, name) && Safe(lib, name) == host
        ensures Parse(lib, d) == Found(host, HttpHost)
      {
        RequestRead(lib, d, lines, k, value);
        ValueIff(lib, value, host);
      }
    }
  }
}
