/** The Network Service frame codec: little-endian headers, partial writes. */
module NetworkFrames {
  import opened Bytes
  import opened Addresses

  datatype Frame = Frame(kind: uint16, flags: uint32, ifIndex: uint32, subIfIndex: uint32, payload: seq<byte>)

  datatype FrameError = Truncated | BadMagic | BadVersion | Oversized

  predicate Sendable(f: Frame) {
    |f.payload| <= 0x10_0000
  }

  // ---- Little-endian numbers ----

  function Le16(n: uint16): (s: seq<byte>)
    ensures |s| == 2 && Le16At(s, 0) == n
  {
    [n % 0x100, n / 0x100]
  }

  function Le32(n: uint32): (s: seq<byte>)
    ensures |s| == 4 && Le32At(s, 0) == n
  {
    Le16(n % 0x1_0000) + Le16(n / 0x1_0000)
  }

  function Le16At(s: seq<byte>, i: nat): uint16
    requires i + 2 <= |s|
  {
    (s[i + 1] as int) * 0x100 + s[i]
  }

  function Le32At(s: seq<byte>, i: nat): uint32
    requires i + 4 <= |s|
  {
    (Le16At(s, i + 2) as int) * 0x1_0000 + Le16At(s, i)
  }

  lemma Le16Window(s: seq<byte>, i: nat)
    requires i + 2 <= |s|
    ensures Le16(Le16At(s, i)) == s[i..i + 2] && Le16At(s[i..i + 2], 0) == Le16At(s, i)
  {
  }

  lemma Le32Halves(low: uint16, high: uint16)
    ensures Le32((high as int) * 0x1_0000 + low) == Le16(low) + Le16(high)
  {
    hide Le16;
    Halves(low, high);
  }

  lemma Le32Window(s: seq<byte>, i: nat)
    requires i + 4 <= |s|
    ensures Le32(Le32At(s, i)) == s[i..i + 4] && Le32At(s[i..i + 4], 0) == Le32At(s, i)
  {
    hide Le16, Le32, Le16At;
    Le16Window(s, i);
    Le16Window(s, i + 2);
    Le32Halves(Le16At(s, i), Le16At(s, i + 2));
    var w := s[i..i + 4];
    assert w == s[i..i + 2] + s[i + 2..i + 4];
    Le16Window(w, 0);
    Le16Window(w, 2);
    assert w[0..2] == s[i..i + 2] && w[2..4] == s[i + 2..i + 4];
  }

  // ---- Frames ----

  /** "RNP1" and version 5. */
  function Header(f: Frame): (h: seq<byte>)
    requires Sendable(f)
    ensures |h| == 24
  {
    Le32(0x31504e52) + Le16(5) + Le16(f.kind) + Le32(f.flags) + Le32(f.ifIndex) + Le32(f.subIfIndex) + Le32(|f.payload|)
  }

  function Encode(f: Frame): seq<byte>
    requires Sendable(f)
  {
    Header(f) + f.payload
  }

  function HeaderError(h: seq<byte>): Option<FrameError>
    requires |h| == 24
  {
    if Le32At(h, 0) != 0x31504e52 then Some(BadMagic)
    else if Le16At(h, 4) != 5 then Some(BadVersion)
    else if Le32At(h, 20) > 0x10_0000 then Some(Oversized)
    else None
  }

  /** readNetworkFrame: the first frame of the bytes b and what follows it. */
  function Decode(b: seq<byte>): (r: Result<(Frame, seq<byte>), FrameError>)
    ensures r.Ok? ==> |r.value.1| < |b|
  {
    if |b| < 24 then Err(Truncated) else
    var h := b[..24];
    match HeaderError(h)
    case Some(e) => Err(e)
    case None =>
      var n := Le32At(h, 20);
      if |b| < 24 + n then Err(Truncated)
      else Ok((Frame(Le16At(h, 6), Le32At(h, 8), Le32At(h, 12), Le32At(h, 16), b[24..24 + n]), b[24 + n..]))
  }

  /** n in little-endian order, digit by digit. */
  predicate LittleEndian(s: seq<byte>, n: nat) {
    if s == [] then n == 0 else s[0] as int == n % 0x100 && LittleEndian(s[1..], n / 0x100)
  }

  /** The bytes on the pipe: the letters RNP1, the version, and each field in its place. */
  lemma Layout(f: Frame)
    requires Sendable(f)
    ensures var b := Encode(f);
            && |b| == 24 + |f.payload| && b[24..] == f.payload
            && b[..4] == ['R' as int, 'N' as int, 'P' as int, '1' as int] && b[4..6] == [5, 0]
            && LittleEndian(b[6..8], f.kind) && LittleEndian(b[8..12], f.flags) && LittleEndian(b[12..16], f.ifIndex)
            && LittleEndian(b[16..20], f.subIfIndex) && LittleEndian(b[20..24], |f.payload|)
  {
    var b := Encode(f);
    LittleIs(f.kind, 0);
    LittleIs(0, f.flags);
    LittleIs(0, f.ifIndex);
    LittleIs(0, f.subIfIndex);
    LittleIs(0, |f.payload|);
    assert Le32(0x31504e52) == [0x52, 0x4e, 0x50, 0x31];
    assert Le16(5) == [5, 0];
    hide Le16, Le32, LittleEndian;
    assert b[..4] == Le32(0x31504e52) && b[4..6] == Le16(5) && b[6..8] == Le16(f.kind);
    assert b[8..12] == Le32(f.flags) && b[12..16] == Le32(f.ifIndex) && b[16..20] == Le32(f.subIfIndex);
    assert b[20..24] == Le32(|f.payload|) && b[24..] == f.payload;
  }

  lemma LittleIs(n: uint16, m: uint32)
    ensures LittleEndian(Le16(n), n) && LittleEndian(Le32(m), m)
  {
    LittleTwo(n);
    LittleFour(m);
  }

  lemma LittleCons(a: byte, rest: seq<byte>, n: nat)
    ensures LittleEndian([a] + rest, n) <==> a as int == n % 0x100 && LittleEndian(rest, n / 0x100)
  {
    assert ([a] + rest)[1..] == rest;
  }

  lemma LittleTwo(n: uint16)
    ensures LittleEndian(Le16(n), n)
  {
    assert Le16(n) == [n % 0x100] + ([n / 0x100] + []);
    LittleCons(n % 0x100, [n / 0x100] + [], n);
    LittleCons(n / 0x100, [], n / 0x100);
  }

  lemma LittleFour(n: uint32)
    ensures LittleEndian(Le32(n), n)
  {
    FourDigits(n);
    hide LittleEndian;
    var b2, b3: seq<byte> := [n / 0x1_0000 % 0x100] + ([n / 0x100_0000] + []), [n / 0x100_0000] + [];
    assert Le32(n) == [n % 0x100] + ([n / 0x100 % 0x100] + b2);
    LittleCons(n % 0x100, [n / 0x100 % 0x100] + b2, n);
    LittleCons(n / 0x100 % 0x100, b2, n / 0x100);
    LittleCons(n / 0x1_0000 % 0x100, b3, n / 0x1_0000);
    LittleCons(n / 0x100_0000, [], n / 0x100_0000);
    LittleNone();
  }

  lemma LittleNone()
    ensures LittleEndian([], 0)
  {
  }

  lemma FourDigits(n: nat)
    requires n < 0x1_0000_0000
    ensures n % 0x1_0000 % 0x100 == n % 0x100 && n % 0x1_0000 / 0x100 == n / 0x100 % 0x100
    ensures n / 0x1_0000 / 0x100 == n / 0x100_0000 && n / 0x100 / 0x100 == n / 0x1_0000
    ensures n / 0x100_0000 < 0x100 && n / 0x100_0000 % 0x100 == n / 0x100_0000 && n / 0x100_0000 / 0x100 == 0
  {
  }

  lemma HeaderFields(f: Frame)
    requires Sendable(f)
    ensures var h := Header(f);
            && HeaderError(h) == None && Le16At(h, 6) == f.kind && Le32At(h, 8) == f.flags
            && Le32At(h, 12) == f.ifIndex && Le32At(h, 16) == f.subIfIndex && Le32At(h, 20) == |f.payload|
  {
    hide Le16, Le32, Le16At, Le32At;
    var h := Header(f);
    Le32Window(h, 0);
    Le16Window(h, 4);
    Le16Window(h, 6);
    Le32Window(h, 8);
    Le32Window(h, 12);
    Le32Window(h, 16);
    Le32Window(h, 20);
    assert h[0..4] == Le32(0x31504e52) && h[4..6] == Le16(5) && h[6..8] == Le16(f.kind);
    assert h[8..12] == Le32(f.flags) && h[12..16] == Le32(f.ifIndex);
    assert h[16..20] == Le32(f.subIfIndex) && h[20..24] == Le32(|f.payload|);
  }

  /** What was encoded is decoded, and nothing behind it is touched. */
  lemma DecodeEncode(f: Frame, rest: seq<byte>)
    requires Sendable(f)
    ensures Decode(Encode(f) + rest) == Ok((f, rest))
  {
    hide Header, HeaderError;
    HeaderFields(f);
    var b := Encode(f) + rest;
    assert b[..24] == Header(f);
    assert b[24..24 + |f.payload|] == f.payload && b[24 + |f.payload|..] == rest;
  }

  /** Only encodings are decoded: the codec has one spelling for each frame. */
  lemma EncodeDecode(b: seq<byte>)
    requires Decode(b).Ok?
    ensures var (f, rest) := Decode(b).value; Sendable(f) && Encode(f) + rest == b
  {
    hide Le16, Le32, Le16At, Le32At;
    var (f, rest) := Decode(b).value;
    var h := b[..24];
    Le32Window(h, 0);
    Le16Window(h, 4);
    Le16Window(h, 6);
    Le32Window(h, 8);
    Le32Window(h, 12);
    Le32Window(h, 16);
    Le32Window(h, 20);
    assert h == h[0..4] + h[4..6] + h[6..8] + h[8..12] + h[12..16] + h[16..20] + h[20..24];
    assert b == h + f.payload + rest;
  }

  /** A frame cut short is never taken for another frame. */
  lemma CutFrameTruncated(f: Frame, n: nat)
    requires Sendable(f) && n < |Encode(f)|
    ensures Decode(Encode(f)[..n]) == Err(Truncated)
  {
    hide Header, HeaderError;
    HeaderFields(f);
    if n >= 24 {
      assert Encode(f)[..n][..24] == Header(f);
    }
  }

  // ---- Sequences of frames ----

  function EncodeAll(fs: seq<Frame>): seq<byte>
    requires forall i :: 0 <= i < |fs| ==> Sendable(fs[i])
  {
    if fs == [] then [] else Encode(fs[0]) + EncodeAll(fs[1..])
  }

  /** Frames up to the end of the stream or the first error. */
  function DecodeAll(b: seq<byte>): (seq<Frame>, seq<byte>)
    decreases |b|
  {
    match Decode(b)
    case Err(_) => ([], b)
    case Ok((f, rest)) =>
      var (fs, left) := DecodeAll(rest);
      ([f] + fs, left)
  }

  lemma {:induction false} DecodeAllEncodeAll(fs: seq<Frame>)
    requires forall i :: 0 <= i < |fs| ==> Sendable(fs[i])
    ensures DecodeAll(EncodeAll(fs)) == (fs, [])
  {
    hide Encode, Decode;
    if fs == [] {
      NothingToDecode();
    } else {
      DecodeAllEncodeAll(fs[1..]);
      DecodeEncode(fs[0], EncodeAll(fs[1..]));
      assert [fs[0]] + fs[1..] == fs;
    }
  }

  lemma NothingToDecode()
    ensures Decode([]) == Err(Truncated)
  {
  }

  lemma {:induction false} EncodeAllSnoc(fs: seq<Frame>, f: Frame)
    requires Sendable(f) && forall i :: 0 <= i < |fs| ==> Sendable(fs[i])
    ensures forall i :: 0 <= i < |fs + [f]| ==> Sendable((fs + [f])[i])
    ensures EncodeAll(fs + [f]) == EncodeAll(fs) + Encode(f)
  {
    hide Encode;
    if fs == [] {
      assert [f][1..] == [];
    } else {
      assert (fs + [f])[1..] == fs[1..] + [f];
      EncodeAllSnoc(fs[1..], f);
    }
  }

  // ---- The pipe ----

  /** A byte stream whose Write may take less than it is given, or fail. */
  class Pipe {
    var sent: seq<byte>
    var toRead: seq<byte>

    constructor (toRead: seq<byte>)
      ensures sent == [] && this.toRead == toRead
    {
      sent, this.toRead := [], toRead;
    }

    /** n is what the writer reports; only bytes of data reach the stream. */
    method Write(data: seq<byte>) returns (n: int, failed: bool)
      modifies this`sent
      ensures exists k :: 0 <= k <= |data| && sent == old(sent) + data[..k] && (!failed && 0 < n <= |data| ==> k == n)
    {
      var k :| 0 <= k <= |data|;
      n, failed := *, *;
      if !failed && 0 < n <= |data| {
        k := n;
      }
      sent := sent + data[..k];
    }

    /** io.ReadFull. */
    method ReadFull(n: nat) returns (r: Option<seq<byte>>)
      modifies this`toRead
      ensures if n <= |old(toRead)| then r == Some(old(toRead)[..n]) && toRead == old(toRead)[n..] else r == None && toRead == []
    {
      if n <= |toRead| {
        r, toRead := Some(toRead[..n]), toRead[n..];
      } else {
        r, toRead := None, [];
      }
    }
  }

  /** writeNetworkBytes: everything in order, or a prefix and an error. */
  method WriteNetworkBytes(writer: Pipe, bytes: seq<byte>) returns (ok: bool)
    modifies writer`sent
    ensures ok ==> writer.sent == old(writer.sent) + bytes
    ensures !ok ==> exists k :: 0 <= k <= |bytes| && writer.sent == old(writer.sent) + bytes[..k]
  {
    var data := bytes;
    while |data| > 0
      invariant |data| <= |bytes| && data == bytes[|bytes| - |data|..]
      invariant writer.sent == old(writer.sent) + bytes[..|bytes| - |data|]
      decreases |data|
    {
      ghost var taken := |bytes| - |data|;
      var n, failed := writer.Write(data);
      ghost var k :| 0 <= k <= |data| && writer.sent == old(writer.sent) + bytes[..taken] + data[..k]
                     && (!failed && 0 < n <= |data| ==> k == n);
      assert bytes[..taken] + data[..k] == bytes[..taken + k];
      if failed || n <= 0 || n > |data| {
        return false;
      }
      data := data[n..];
    }
    return true;
  }

  method WriteNetworkFrame(writer: Pipe, frame: Frame) returns (ok: bool)
    modifies writer`sent
    ensures |frame.payload| > 0x10_0000 ==> !ok && writer.sent == old(writer.sent)
    ensures ok ==> Sendable(frame) && writer.sent == old(writer.sent) + Encode(frame)
    ensures !ok && Sendable(frame) ==>
              exists k :: 0 <= k <= |Encode(frame)| && writer.sent == old(writer.sent) + Encode(frame)[..k]
  {
    hide Header;
    if |frame.payload| > 0x10_0000 {
      return false;
    }
    ghost var before, whole := writer.sent, Encode(frame);
    var header := Header(frame);
    ok := WriteNetworkBytes(writer, header);
    if !ok {
      ghost var k :| 0 <= k <= |header| && writer.sent == before + header[..k];
      assert header[..k] == whole[..k];
      return false;
    }
    ok := WriteNetworkBytes(writer, frame.payload);
    if !ok {
      ghost var k :| 0 <= k <= |frame.payload| && writer.sent == before + header + frame.payload[..k];
      assert header + frame.payload[..k] == whole[..24 + k];
      assert writer.sent == before + whole[..24 + k];
    }
  }

  /** Frames written one after another over any partial writes are read back as the
      same frames. */
  method WriteFrames(writer: Pipe, fs: seq<Frame>) returns (written: nat)
    requires writer.sent == [] && forall i :: 0 <= i < |fs| ==> Sendable(fs[i])
    modifies writer`sent
    ensures written <= |fs|
    ensures written == |fs| ==> DecodeAll(writer.sent) == (fs, [])
  {
    hide Encode;
    written := 0;
    assert fs[..0] == [];
    while written < |fs|
      invariant written <= |fs| && writer.sent == EncodeAll(fs[..written])
    {
      EncodeAllSnoc(fs[..written], fs[written]);
      assert fs[..written + 1] == fs[..written] + [fs[written]];
      var ok := WriteNetworkFrame(writer, fs[written]);
      if !ok {
        return;
      }
      written := written + 1;
    }
    assert fs[..written] == fs;
    DecodeAllEncodeAll(fs);
  }

  method ReadNetworkFrame(reader: Pipe) returns (r: Result<Frame, FrameError>)
    modifies reader`toRead
    ensures match Decode(old(reader.toRead))
            case Ok((f, rest)) => r == Ok(f) && reader.toRead == rest
            case Err(e) => r == Err(e)
  {
    var header := reader.ReadFull(24);
    if header.None? {
      return Err(Truncated);
    }
    var h := header.value;
    if Le32At(h, 0) != 0x31504e52 {
      return Err(BadMagic);
    }
    if Le16At(h, 4) != 5 {
      return Err(BadVersion);
    }
    var length := Le32At(h, 20);
    if length > 0x10_0000 {
      return Err(Oversized);
    }
    var frame := Frame(Le16At(h, 6), Le32At(h, 8), Le32At(h, 12), Le32At(h, 16), []);
    if length != 0 {
      var payload := reader.ReadFull(length);
      if payload.None? {
        return Err(Truncated);
      }
      frame := frame.(payload := payload.value);
    }
    ghost var b := old(reader.toRead);
    assert b[24..][..length] == b[24..24 + length] && b[24..][length..] == b[24 + length..];
    return Ok(frame);
  }
}
