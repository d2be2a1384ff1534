/** Passive DNS-over-TCP observation: bounded in-order reassembly and the
    two-byte length framing of RFC 1035 section 4.2.2 and RFC 7766 section 8. */
module DnsStream {
  import opened Bytes
  import opened Addresses
  import opened Packet
  import opened Sets

  /** Ten seconds, in nanoseconds. */
  const TTL := 10_000_000_000

  type Message = seq<byte>

  // ---- Framing ----

  /** The complete messages at the start of a byte string, what follows them, and
      whether that starts with an impossible length. */
  datatype Framing = Framing(messages: seq<Message>, rest: seq<byte>, bad: bool)

  function Frames(b: seq<byte>): (f: Framing)
    ensures !f.bad ==> |f.rest| <= 8193
    decreases |b|
  {
    match FrontOf(b)
    case Incomplete => Framing([], b, false)
    case Impossible => Framing([], b, true)
    case Complete(size) =>
      var f := Frames(b[size + 2..]);
      f.(messages := [b[2..size + 2]] + f.messages)
  }

  /** What stands at the front of a byte string. */
  datatype Front = Incomplete | Impossible | Complete(size: nat)

  function FrontOf(b: seq<byte>): (front: Front)
    ensures front.Complete? ==> 12 <= front.size <= 8192 && front.size + 2 <= |b| && front.size == U16At(b, 0)
    ensures front.Incomplete? ==> |b| <= 8193
  {
    if |b| < 2 then Incomplete else
    var size := U16At(b, 0);
    if size < 12 || size > 8192 then Impossible
    else if |b| < size + 2 then Incomplete
    else Complete(size)
  }

  lemma FrontStable(a: seq<byte>, b: seq<byte>)
    ensures !FrontOf(a).Incomplete? ==> FrontOf(a + b) == FrontOf(a)
  {
    if |a| >= 2 {
      assert U16At(a + b, 0) == U16At(a, 0);
    }
  }

  predicate Frameable(m: Message) {
    12 <= |m| <= 8192
  }

  predicate AllFrameable(messages: seq<Message>) {
    forall i :: 0 <= i < |messages| ==> Frameable(messages[i])
  }

  /** Messages as they travel, each behind its length. */
  function Prefixed(messages: seq<Message>): seq<byte>
    requires AllFrameable(messages)
  {
    if messages == [] then [] else
    U16(|messages[0]|) + messages[0] + Prefixed(messages[1..])
  }

  /** Nothing is lost or invented: the messages, prefixed again, and the rest are
      the original bytes. */
  lemma {:induction false} FramesPrint(b: seq<byte>)
    ensures AllFrameable(Frames(b).messages)
    ensures Prefixed(Frames(b).messages) + Frames(b).rest == b
  {
    hide FrontOf, U16, Prefixed, Frames;
    PrefixedNone();
    FramesUnfold(b);
    match FrontOf(b)
    case Complete(size) =>
      var head, tail := b[2..size + 2], b[size + 2..];
      FramesPrint(tail);
      U16Encodes(b, 0);
      PrefixedCons(head, Frames(tail).messages);
      assert b == U16(size) + head + tail;
    case _ =>
  }

  lemma PrefixedNone()
    ensures Prefixed([]) == []
  {
  }

  lemma PrefixedCons(m: Message, messages: seq<Message>)
    requires Frameable(m) && AllFrameable(messages)
    ensures AllFrameable([m] + messages)
    ensures Prefixed([m] + messages) == U16(|m|) + m + Prefixed(messages)
  {
    assert ([m] + messages)[1..] == messages;
  }

  /** Round trip: prefixed messages frame to themselves. */
  lemma {:induction false} FramesOfPrefixed(messages: seq<Message>)
    requires AllFrameable(messages)
    ensures Frames(Prefixed(messages)) == Framing(messages, [], false)
  {
    if messages != [] {
      var m, tail := messages[0], Prefixed(messages[1..]);
      FramesOfPrefixed(messages[1..]);
      FrontOfPrefixed(m, tail);
      assert messages == [m] + messages[1..];
    }
  }

  lemma FrontOfPrefixed(m: Message, tail: seq<byte>)
    requires Frameable(m)
    ensures var b := U16(|m|) + m + tail;
            FrontOf(b) == Complete(|m|) && b[2..|m| + 2] == m && b[|m| + 2..] == tail
  {
    var b := U16(|m|) + m + tail;
    assert b[..2] == U16(|m|);
    assert U16At(b, 0) == U16At(b[..2], 0) == |m|;
  }

  /** Framing can stop after any prefix and go on with what was left. */
  lemma {:induction false} FramesContinue(a: seq<byte>, b: seq<byte>)
    ensures !Frames(a).bad ==>
              var g := Frames(Frames(a).rest + b);
              Frames(a + b) == g.(messages := Frames(a).messages + g.messages)
    ensures Frames(a).bad ==> Frames(a + b).bad && Frames(a + b).messages == Frames(a).messages
  {
    hide FrontOf, Frames;
    FrontStable(a, b);
    FramesUnfold(a);
    match FrontOf(a)
    case Complete(size) =>
      var head, tail := a[2..size + 2], a[size + 2..];
      FramesContinue(tail, b);
      assert (a + b)[size + 2..] == tail + b && (a + b)[2..size + 2] == head;
      FramesUnfold(a + b);
      var f, g := Frames(tail), Frames(Frames(tail).rest + b);
      assert ([head] + f.messages) + g.messages == [head] + (f.messages + g.messages);
    case Incomplete =>
      assert [] + Frames(a + b).messages == Frames(a + b).messages;
    case Impossible =>
      FramesUnfold(a + b);
  }

  lemma FramesUnfold(b: seq<byte>)
    ensures match FrontOf(b)
            case Incomplete => Frames(b) == Framing([], b, false)
            case Impossible => Frames(b) == Framing([], b, true)
            case Complete(size) =>
              var f := Frames(b[size + 2..]);
              Frames(b) == Framing([b[2..size + 2]] + f.messages, f.rest, f.bad)
  {
  }

  /** forEachCompleteDNSTCPFrame: the frames inside one segment. */
  method CompleteFrames(segment: seq<byte>) returns (observed: seq<Message>)
    ensures observed == Frames(segment).messages
  {
    observed := [];
    var payload := segment;
    while |payload| >= 2
      invariant Frames(segment).messages == observed + Frames(payload).messages
      decreases |payload|
    {
      var size := U16At(payload, 0);
      if size < 12 || size > 8192 || |payload| - 2 < size {
        return;
      }
      observed := observed + [payload[2..2 + size]];
      payload := payload[2 + size..];
    }
  }

  // ---- One direction of a connection ----

  datatype StreamKey = StreamKey(source: AddrPort, destination: AddrPort)

  datatype Stream = Stream(next: uint32, buffer: seq<byte>, expires: int, invalid: bool)

  type Streams = map<StreamKey, Stream>

  function Advance(sequence: uint32, n: nat): uint32 {
    (sequence + n) % 0x1_0000_0000
  }

  /** A segment entirely before the expected number, in plain uint32 order. */
  predicate Retransmission(s: Stream, sequence: uint32, n: nat) {
    sequence < s.next && sequence + n <= s.next
  }

  /** The segment continues the stream and fits its buffer. */
  predicate Taken(s: Stream, sequence: uint32, payload: seq<byte>) {
    !s.invalid && sequence == s.next && |s.buffer| + |payload| <= 8194
  }

  /** One non-empty segment: the new state and the messages completed by it. */
  function Feed(s: Stream, sequence: uint32, payload: seq<byte>, now: int): (Stream, seq<Message>) {
    if s.invalid then (s, [])
    else if sequence != s.next then
      (if Retransmission(s, sequence, |payload|) then s else s.(invalid := true, buffer := []), [])
    else
      var s' := s.(next := Advance(s.next, |payload|), expires := now + TTL);
      if !Taken(s, sequence, payload) then (s'.(invalid := true, buffer := []), [])
      else
        var f := Frames(s.buffer + payload);
        (if f.bad then s'.(invalid := true, buffer := []) else s'.(buffer := f.rest), f.messages)
  }

  // ---- The observer ----

  function Unexpired(streams: Streams, now: int): Streams {
    map k | k in streams && streams[k].expires > now :: streams[k]
  }

  /** The streams a non-empty segment for `key` finds, or None if there is no room. */
  function Admitted(streams: Streams, key: StreamKey, now: int): Option<Streams> {
    var s1 := if key in streams && streams[key].expires <= now then streams - {key} else streams;
    if key in s1 || |s1| < 512 then Some(s1)
    else
      var s2 := Unexpired(s1, now);
      if |s2| < 512 then Some(s2) else None
  }

  function Found(streams: Streams, key: StreamKey, sequence: uint32, now: int): Stream {
    if key in streams then streams[key] else Stream(sequence, [], now + TTL, false)
  }

  function Key(p: IpPacket): StreamKey {
    StreamKey(p.source, p.destination)
  }

  /** dnsTCPObserver.observe for a segment with payload, dns_tcp_stream.go:67-124. */
  function OnPayload(s0: Streams, p: IpPacket, now: int): (Streams, seq<Message>) {
    match Admitted(s0, Key(p), now)
    case None => (Unexpired(s0, now), [])
    case Some(s2) =>
      var before := Found(s2, Key(p), p.tcpSequence, now);
      var (s, messages) := Feed(before, p.tcpSequence, p.payload, now);
      if Bit(p.tcpFlags, 1) && Taken(before, p.tcpSequence, p.payload) && !s.invalid
      then (s2 - {Key(p)}, messages)
      else (s2[Key(p) := s], messages)
  }

  /** dnsTCPObserver.observe. */
  function Observed(streams: Streams, p: IpPacket, now: int): (Streams, seq<Message>) {
    if p.protocol != ProtoTCP then (streams, []) else
    var s0 := if Bit(p.tcpFlags, 2) then streams - {Key(p)} else streams;
    if Bit(p.tcpFlags, 4) then (s0 - {Key(p)}, [])
    else if p.payload == [] then (if Bit(p.tcpFlags, 1) then s0 - {Key(p)} else s0, [])
    else OnPayload(s0, p, now)
  }

  class DnsTcpObserver {
    var streams: Streams

    constructor ()
      ensures streams == map[]
    {
      streams := map[];
    }

    method PruneExpired(now: int)
      modifies this
      ensures streams == Unexpired(old(streams), now)
    {
      var keys := streams.Keys;
      while keys != {}
        invariant keys <= old(streams).Keys
        invariant streams == map k | k in old(streams) && (k in keys || old(streams)[k].expires > now) :: old(streams)[k]
        decreases keys
      {
        var k :| k in keys;
        keys := keys - {k};
        if streams[k].expires <= now {
          streams := streams - {k};
        }
      }
    }

    method Observe(p: IpPacket, now: int) returns (messages: seq<Message>)
      modifies this
      ensures (streams, messages) == Observed(old(streams), p, now)
    {
      hide OnPayload;
      messages := [];
      if p.protocol != ProtoTCP {
        return;
      }
      var key := StreamKey(p.source, p.destination);
      if Bit(p.tcpFlags, 2) {
        streams := streams - {key};
      }
      if Bit(p.tcpFlags, 4) {
        streams := streams - {key};
        return;
      }
      if |p.payload| == 0 {
        if Bit(p.tcpFlags, 1) {
          streams := streams - {key};
        }
        return;
      }
      messages := ObservePayload(p, now);
    }

    /** Makes room for the key's stream and creates it if it is not there. */
    method Admit(key: StreamKey, sequence: uint32, now: int) returns (ok: bool)
      modifies this
      ensures match Admitted(old(streams), key, now)
              case None => !ok && streams == Unexpired(old(streams), now)
              case Some(s2) => ok && streams == s2[key := Found(s2, key, sequence, now)]
    {
      ghost var s0 := streams;
      if key in streams && streams[key].expires <= now {
        streams := streams - {key};
      }
      if key !in streams {
        if |streams| >= 512 {
          PruneExpired(now);
          if |streams| >= 512 {
            assert streams == Unexpired(s0, now);
            return false;
          }
        }
        assert Admitted(s0, key, now) == Some(streams);
        streams := streams[key := Stream(sequence, [], now + TTL, false)];
      }
      return true;
    }

    method ObservePayload(p: IpPacket, now: int) returns (messages: seq<Message>)
      modifies this
      ensures (streams, messages) == OnPayload(old(streams), p, now)
    {
      hide Feed, Admitted, Unexpired, Taken, Found;
      var key := StreamKey(p.source, p.destination);
      var ok := Admit(key, p.tcpSequence, now);
      if !ok {
        return [];
      }
      ghost var s2 := Admitted(old(streams), key, now).value;
      ghost var before := Found(s2, key, p.tcpSequence, now);
      var keep;
      keep, messages := Segment(key, p, now);
      assert streams == s2[key := Feed(before, p.tcpSequence, p.payload, now).0];
      if keep && Bit(p.tcpFlags, 1) {
        streams := streams - {key};
        assert streams == s2 - {key};
      }
    }

    /** dns_tcp_stream.go:86-120 on a stream that is stored. */
    method Segment(key: StreamKey, p: IpPacket, now: int) returns (keep: bool, messages: seq<Message>)
      requires key in streams
      modifies this
      ensures streams == old(streams)[key := Feed(old(streams)[key], p.tcpSequence, p.payload, now).0]
      ensures messages == Feed(old(streams)[key], p.tcpSequence, p.payload, now).1
      ensures keep <==> Taken(old(streams)[key], p.tcpSequence, p.payload) && !streams[key].invalid
    {
      hide Frames;
      var state := streams[key];
      if state.invalid {
        return false, [];
      }
      if p.tcpSequence != state.next {
        if p.tcpSequence < state.next && p.tcpSequence + |p.payload| <= state.next {
          return false, [];
        }
        streams := streams[key := state.(invalid := true, buffer := [])];
        return false, [];
      }
      state := state.(next := (state.next + |p.payload|) % 0x1_0000_0000, expires := now + TTL);
      if |state.buffer| + |p.payload| > 8194 {
        streams := streams[key := state.(invalid := true, buffer := [])];
        return false, [];
      }
      var framing := TakeFrames(state.buffer + p.payload);
      messages := framing.messages;
      if framing.bad {
        streams := streams[key := state.(invalid := true, buffer := [])];
        return false, messages;
      }
      streams := streams[key := state.(buffer := framing.rest)];
      return true, messages;
    }
  }

  /** The framing loop, dns_tcp_stream.go:108-120. */
  method TakeFrames(all: seq<byte>) returns (framing: Framing)
    ensures framing == Frames(all)
  {
    hide Frames;
    var buffer, messages := all, [];
    FramesUnfold(buffer);
    while |buffer| >= 2
      invariant Frames(all) == Frames(buffer).(messages := messages + Frames(buffer).messages)
      decreases |buffer|
    {
      FramesUnfold(buffer);
      var size := U16At(buffer, 0);
      if size < 12 || size > 8192 {
        return Framing(messages, buffer, true);
      }
      if |buffer| < size + 2 {
        return Framing(messages, buffer, false);
      }
      messages := messages + [buffer[2..size + 2]];
      buffer := buffer[size + 2..];
    }
    FramesUnfold(buffer);
    return Framing(messages, buffer, false);
  }

  // ---- Whole runs ----

  /** What a stream has been through since it was created: the first expected
      sequence number, the segments taken, and the messages emitted. */
  datatype Life = Life(start: uint32, segments: seq<(uint32, seq<byte>)>, emitted: seq<Message>)
  {
    function Bytes(): seq<byte> {
      Joined(segments)
    }
  }

  function Joined(segments: seq<(uint32, seq<byte>)>): seq<byte> {
    if segments == [] then [] else Joined(segments[..|segments| - 1]) + segments[|segments| - 1].1
  }

  /** Each segment starts where the bytes before it end, modulo 2^32. */
  predicate Contiguous(start: uint32, segments: seq<(uint32, seq<byte>)>) {
    forall i :: 0 <= i < |segments| ==> segments[i].0 == Advance(start, |Joined(segments[..i])|)
  }

  ghost predicate LifeOf(s: Stream, l: Life) {
    && l.emitted == Frames(l.Bytes()).messages
    && Contiguous(l.start, l.segments)
    && (s.invalid ==> s.buffer == [])
    && (!s.invalid ==>
          && s.next == Advance(l.start, |l.Bytes()|)
          && !Frames(l.Bytes()).bad && s.buffer == Frames(l.Bytes()).rest)
  }

  function LifeAfter(l: Life, s: Stream, sequence: uint32, payload: seq<byte>, messages: seq<Message>): Life {
    if Taken(s, sequence, payload)
    then Life(l.start, l.segments + [(sequence, payload)], l.emitted + messages) else l
  }

  lemma FeedLife(s: Stream, l: Life, sequence: uint32, payload: seq<byte>, now: int)
    requires LifeOf(s, l)
    ensures var (s', messages) := Feed(s, sequence, payload, now);
            LifeOf(s', LifeAfter(l, s, sequence, payload, messages))
  {
    hide Frames;
    var (s', messages) := Feed(s, sequence, payload, now);
    var l' := LifeAfter(l, s, sequence, payload, messages);
    if Taken(s, sequence, payload) {
      assert l'.segments[..|l.segments|] == l.segments;
      assert l'.Bytes() == l.Bytes() + payload;
      FramesContinue(l.Bytes(), payload);
      forall i | 0 <= i < |l'.segments| ensures l'.segments[i].0 == Advance(l.start, |Joined(l'.segments[..i])|) {
        assert i < |l.segments| ==> l'.segments[..i] == l.segments[..i];
      }
      AdvanceTwice(l.start, |l.Bytes()|, |payload|);
    }
  }

  lemma AdvanceTwice(start: uint32, m: nat, n: nat)
    ensures Advance(Advance(start, m), n) == Advance(start, m + n)
  {
  }

  datatype History = History(streams: Streams, lives: map<StreamKey, Life>)

  /** The observer with a record of the lives of its present streams. */
  function Step(h: History, p: IpPacket, now: int): History {
    var (streams, messages) := Observed(h.streams, p, now);
    var kept := map k | k in h.lives && k in streams && k != Key(p) :: h.lives[k];
    if Key(p) !in streams then History(streams, kept)
    else if p.protocol != ProtoTCP || p.payload == [] || Bit(p.tcpFlags, 4) then
      History(streams, if Key(p) in h.lives then kept[Key(p) := h.lives[Key(p)]] else kept)
    else
      var again := !Bit(p.tcpFlags, 2) && Key(p) in h.streams && h.streams[Key(p)].expires > now;
      var before := if again then h.streams[Key(p)] else Stream(p.tcpSequence, [], now + TTL, false);
      var life := if again && Key(p) in h.lives then h.lives[Key(p)] else Life(p.tcpSequence, [], []);
      History(streams, kept[Key(p) := LifeAfter(life, before, p.tcpSequence, p.payload, messages)])
  }

  ghost predicate Inv(h: History) {
    && h.lives.Keys == h.streams.Keys
    && |h.streams| <= 512
    && forall k :: k in h.streams ==> LifeOf(h.streams[k], h.lives[k])
  }

  lemma PayloadCount(streams: Streams, p: IpPacket, now: int)
    requires |streams| <= 512
    ensures |OnPayload(streams, p, now).0| <= 512
  {
    hide Feed, Admitted, Unexpired, Taken, Bit, Found;
    UnexpiredSize(streams, now);
    var s2 := Admitted(streams, Key(p), now);
    if s2.Some? {
      AdmittedSize(streams, Key(p), now);
      RemovedSize(s2.value, Key(p));
      var before := Found(s2.value, Key(p), p.tcpSequence, now);
      UpdatedSize(s2.value, Key(p), Feed(before, p.tcpSequence, p.payload, now).0);
    }
  }

  lemma StreamCount(streams: Streams, p: IpPacket, now: int)
    requires |streams| <= 512
    ensures |Observed(streams, p, now).0| <= 512
  {
    hide OnPayload, Bit, Feed, Frames;
    var s0 := if Bit(p.tcpFlags, 2) then streams - {Key(p)} else streams;
    RemovedSize(streams, Key(p));
    RemovedSize(s0, Key(p));
    PayloadCount(s0, p, now);
  }

  lemma RemovedSize(streams: Streams, key: StreamKey)
    ensures |streams - {key}| <= |streams|
  {
    SubsetSize((streams - {key}).Keys, streams.Keys);
  }

  lemma UnexpiredSize(streams: Streams, now: int)
    ensures |Unexpired(streams, now)| <= |streams|
  {
    SubsetSize(Unexpired(streams, now).Keys, streams.Keys);
  }

  lemma UpdatedSize(streams: Streams, key: StreamKey, s: Stream)
    ensures |streams[key := s]| <= if key in streams then |streams| else |streams| + 1
  {
    MapUpdateSize(streams, key, s);
    if key in streams {
      assert streams[key := s].Keys == streams.Keys;
      assert |streams[key := s]| == |streams[key := s].Keys| && |streams| == |streams.Keys|;
    }
  }

  lemma AdmittedSize(streams: Streams, key: StreamKey, now: int)
    requires |streams| <= 512 && Admitted(streams, key, now).Some?
    ensures var s := Admitted(streams, key, now).value;
            |s| <= 512 && (key in s || |s| < 512)
  {
    var s := Admitted(streams, key, now).value;
    SubsetSize(s.Keys, streams.Keys);
  }

  /** Streams of other keys are kept as they are or dropped. */
  lemma OthersUntouched(streams: Streams, p: IpPacket, now: int, k: StreamKey)
    requires k != Key(p) && k in Observed(streams, p, now).0
    ensures k in streams && Observed(streams, p, now).0[k] == streams[k]
  {
    hide Feed, Admitted, Taken;
    var s0 := if Bit(p.tcpFlags, 2) then streams - {Key(p)} else streams;
    AdmittedOthers(s0, Key(p), now);
  }

  lemma AdmittedOthers(streams: Streams, key: StreamKey, now: int)
    ensures var s2 := Admitted(streams, key, now);
            s2.Some? ==> forall k :: k in s2.value ==> k in streams && s2.value[k] == streams[k]
  {
  }

  lemma AdmittedOwn(streams: Streams, key: StreamKey, sequence: uint32, now: int)
    ensures var s2 := Admitted(streams, key, now);
            s2.Some? ==> Found(s2.value, key, sequence, now) ==
                         if key in streams && streams[key].expires > now then streams[key]
                         else Stream(sequence, [], now + TTL, false)
    ensures Admitted(streams, key, now).None? ==> key !in streams || streams[key].expires <= now
  {
  }

  /** The stream of the packet's own key, when it has a payload. */
  lemma OwnStream(streams: Streams, p: IpPacket, now: int)
    requires p.protocol == ProtoTCP && p.payload != [] && !Bit(p.tcpFlags, 4) && Key(p) in Observed(streams, p, now).0
    ensures var again := !Bit(p.tcpFlags, 2) && Key(p) in streams && streams[Key(p)].expires > now;
            var before := if again then streams[Key(p)] else Stream(p.tcpSequence, [], now + TTL, false);
            Observed(streams, p, now).0[Key(p)] == Feed(before, p.tcpSequence, p.payload, now).0
            && Observed(streams, p, now).1 == Feed(before, p.tcpSequence, p.payload, now).1
  {
    hide Feed, Admitted, Taken, Found;
    var s0 := if Bit(p.tcpFlags, 2) then streams - {Key(p)} else streams;
    AdmittedOwn(s0, Key(p), p.tcpSequence, now);
  }

  lemma InvStep(h: History, p: IpPacket, now: int)
    requires Inv(h)
    ensures Inv(Step(h, p, now))
  {
    hide Observed, Feed, LifeOf, LifeAfter;
    StreamCount(h.streams, p, now);
    var h' := Step(h, p, now);
    forall k | k in h'.streams && k != Key(p) ensures k in h.streams && h'.streams[k] == h.streams[k] {
      OthersUntouched(h.streams, p, now, k);
    }
    if Key(p) in h'.streams {
      if p.protocol != ProtoTCP || p.payload == [] || Bit(p.tcpFlags, 4) {
        NoPayload(h.streams, p, now);
      } else {
        OwnStream(h.streams, p, now);
        FreshLife(p.tcpSequence, now);
        var again := !Bit(p.tcpFlags, 2) && Key(p) in h.streams && h.streams[Key(p)].expires > now;
        var before := if again then h.streams[Key(p)] else Stream(p.tcpSequence, [], now + TTL, false);
        var life := if again then h.lives[Key(p)] else Life(p.tcpSequence, [], []);
        FeedLife(before, life, p.tcpSequence, p.payload, now);
      }
    }
  }

  lemma NoPayload(streams: Streams, p: IpPacket, now: int)
    requires (p.protocol != ProtoTCP || p.payload == [] || Bit(p.tcpFlags, 4)) && Key(p) in Observed(streams, p, now).0
    ensures Key(p) in streams && Observed(streams, p, now).0[Key(p)] == streams[Key(p)]
  {
  }

  lemma FreshLife(sequence: uint32, now: int)
    ensures LifeOf(Stream(sequence, [], now + TTL, false), Life(sequence, [], []))
  {
  }

  function Run(packets: seq<(IpPacket, int)>): History {
    if packets == [] then History(map[], map[])
    else
      var last := packets[|packets| - 1];
      Step(Run(packets[..|packets| - 1]), last.0, last.1)
  }

  /** After any packets: at most 512 streams, and for each one that is not invalid
      the messages emitted, prefixed again, followed by the bounded buffer are
      exactly the payloads taken, which are one contiguous run of sequence space. */
  lemma {:induction false} RunReassembles(packets: seq<(IpPacket, int)>)
    ensures var h := Run(packets);
            && Inv(h) && |h.streams| <= 512 && h.lives.Keys == h.streams.Keys
            && forall k :: k in h.streams ==>
                 && Contiguous(h.lives[k].start, h.lives[k].segments)
                 && AllFrameable(h.lives[k].emitted)
                 && |h.streams[k].buffer| <= 8193
                 && (!h.streams[k].invalid ==> Prefixed(h.lives[k].emitted) + h.streams[k].buffer == h.lives[k].Bytes())
  {
    hide Step, Frames;
    if packets != [] {
      var last := packets[|packets| - 1];
      RunReassembles(packets[..|packets| - 1]);
      InvStep(Run(packets[..|packets| - 1]), last.0, last.1);
    }
    var h := Run(packets);
    forall k | k in h.streams ensures
        && AllFrameable(h.lives[k].emitted)
        && (!h.streams[k].invalid ==> Prefixed(h.lives[k].emitted) + h.streams[k].buffer == h.lives[k].Bytes())
    {
      FramesPrint(h.lives[k].Bytes());
    }
  }

  /** The packet goes on with the stream its key had before. */
  predicate GoesOn(h: History, p: IpPacket, now: int) {
    !Bit(p.tcpFlags, 2) && Key(p) in h.streams && h.streams[Key(p)].expires > now
  }

  /** What the packet's stream has been through, this packet included, whether or not
      the stream is still stored afterwards. */
  function LifeWith(h: History, p: IpPacket, now: int): Life {
    var before := if GoesOn(h, p, now) then h.streams[Key(p)] else Stream(p.tcpSequence, [], now + TTL, false);
    var life := if GoesOn(h, p, now) && Key(p) in h.lives then h.lives[Key(p)] else Life(p.tcpSequence, [], []);
    LifeAfter(life, before, p.tcpSequence, p.payload, Feed(before, p.tcpSequence, p.payload, now).1)
  }

  /** The output of a packet is that of feeding its stream, or nothing. */
  lemma OutputIsFed(streams: Streams, p: IpPacket, now: int)
    requires Observed(streams, p, now).1 != []
    ensures p.protocol == ProtoTCP && p.payload != [] && !Bit(p.tcpFlags, 4)
    ensures var again := !Bit(p.tcpFlags, 2) && Key(p) in streams && streams[Key(p)].expires > now;
            var before := if again then streams[Key(p)] else Stream(p.tcpSequence, [], now + TTL, false);
            Observed(streams, p, now).1 == Feed(before, p.tcpSequence, p.payload, now).1
  {
    hide Feed, Admitted, Taken, Found;
    var s0 := if Bit(p.tcpFlags, 2) then streams - {Key(p)} else streams;
    AdmittedOwn(s0, Key(p), p.tcpSequence, now);
  }

  lemma FedMeansTaken(s: Stream, sequence: uint32, payload: seq<byte>, now: int)
    requires Feed(s, sequence, payload, now).1 != []
    ensures Taken(s, sequence, payload)
  {
    hide Frames;
  }

  /** Every message ever returned, also for a segment whose FIN removes the stream or
      whose bad length ends it: together with the stream's earlier messages and some
      rest it is exactly the contiguous payloads taken, up to this segment. */
  lemma OutputReassembles(packets: seq<(IpPacket, int)>, p: IpPacket, now: int) returns (rest: seq<byte>)
    requires Observed(Run(packets).streams, p, now).1 != []
    ensures var h := Run(packets);
            var life, messages := LifeWith(h, p, now), Observed(h.streams, p, now).1;
            && life.segments != [] && life.segments[|life.segments| - 1] == (p.tcpSequence, p.payload)
            && life.emitted == (if GoesOn(h, p, now) && Key(p) in h.lives then h.lives[Key(p)].emitted else []) + messages
            && Contiguous(life.start, life.segments) && AllFrameable(life.emitted)
            && Prefixed(life.emitted) + rest == life.Bytes()
  {
    RunReassembles(packets);
    hide Run, Observed, Feed, Frames;
    var h := Run(packets);
    OutputIsFed(h.streams, p, now);
    var before := if GoesOn(h, p, now) then h.streams[Key(p)] else Stream(p.tcpSequence, [], now + TTL, false);
    var life := if GoesOn(h, p, now) then h.lives[Key(p)] else Life(p.tcpSequence, [], []);
    FreshLife(p.tcpSequence, now);
    FeedLife(before, life, p.tcpSequence, p.payload, now);
    FedMeansTaken(before, p.tcpSequence, p.payload, now);
    var bytes := LifeWith(h, p, now).Bytes();
    FramesPrint(bytes);
    rest := Frames(bytes).rest;
  }

  // ---- Segmentation does not matter ----

  /** In-order delivery of the segments to one stream; all messages it emits. */
  function FeedAll(s: Stream, segments: seq<seq<byte>>, now: int): (Stream, seq<Message>) {
    if segments == [] then (s, []) else
    var (s1, messages) := FeedAll(s, segments[..|segments| - 1], now);
    var (s2, more) := Feed(s1, s1.next, segments[|segments| - 1], now);
    (s2, messages + more)
  }

  function Flat(segments: seq<seq<byte>>): seq<byte> {
    if segments == [] then [] else Flat(segments[..|segments| - 1]) + segments[|segments| - 1]
  }

  /** No segment overfills the buffer, as long as the lengths are possible. */
  ghost predicate WithinBound(segments: seq<seq<byte>>) {
    forall i :: 0 <= i < |segments| ==>
      var f := Frames(Flat(segments[..i]));
      f.bad || |f.rest| + |segments[i]| <= 8194
  }

  /** Any segmentation within the buffer bound emits exactly the messages of
      framing the whole byte string, a bad length included. */
  lemma {:induction false} SegmentationIrrelevant(start: uint32, segments: seq<seq<byte>>, now: int)
    requires WithinBound(segments)
    ensures var (s, messages) := FeedAll(Stream(start, [], now + TTL, false), segments, now);
            var f := Frames(Flat(segments));
            && messages == f.messages && s.invalid == f.bad
            && (!f.bad ==> s.buffer == f.rest && s.next == Advance(start, |Flat(segments)|))
  {
    hide Frames;
    if segments == [] {
      assert Frames([]) == Framing([], [], false) by { FramesNone(); }
    } else {
      var before, last := segments[..|segments| - 1], segments[|segments| - 1];
      assert forall i :: 0 <= i < |before| ==> segments[..i] == before[..i];
      SegmentationIrrelevant(start, before, now);
      FramesContinue(Flat(before), last);
      AdvanceTwice(start, |Flat(before)|, |last|);
      assert segments[..|segments| - 1] == before;
    }
  }

  lemma FramesNone()
    ensures Frames([]) == Framing([], [], false)
  {
  }

  /** Whatever is dropped, the messages emitted are always the first messages of
      the framing of all bytes delivered. */
  lemma {:induction false} EmitsOnlyPrefix(start: uint32, segments: seq<seq<byte>>, now: int)
    ensures var (s, messages) := FeedAll(Stream(start, [], now + TTL, false), segments, now);
            && messages <= Frames(Flat(segments)).messages
            && (!s.invalid ==> messages == Frames(Flat(segments)).messages
                               && !Frames(Flat(segments)).bad && s.buffer == Frames(Flat(segments)).rest)
  {
    hide Frames;
    if segments == [] {
      FramesNone();
    } else {
      var before, last := segments[..|segments| - 1], segments[|segments| - 1];
      EmitsOnlyPrefix(start, before, now);
      FramesContinue(Flat(before), last);
      var (s1, messages) := FeedAll(Stream(start, [], now + TTL, false), before, now);
      assert Frames(Flat(before)).messages <= Frames(Flat(segments)).messages;
    }
  }

  // ---- One stream among others ----

  predicate Belongs(p: IpPacket, k: StreamKey) {
    p.protocol == ProtoTCP && Key(p) == k
  }

  /** The bytes that a run carries for one stream. */
  function Payloads(packets: seq<(IpPacket, int)>, k: StreamKey): seq<byte> {
    if packets == [] then [] else
    var last := packets[|packets| - 1].0;
    Payloads(packets[..|packets| - 1], k) + if Belongs(last, k) then last.payload else []
  }

  /** What the observer returns for that stream's packets, behind the run `earlier`. */
  function Returned(earlier: seq<(IpPacket, int)>, packets: seq<(IpPacket, int)>, k: StreamKey): seq<Message> {
    if packets == [] then [] else
    var before := packets[..|packets| - 1];
    var (p, now) := packets[|packets| - 1];
    Returned(earlier, before, k) + if Belongs(p, k) then Observed(Run(earlier + before).streams, p, now).1 else []
  }

  /** The observer follows the stream through this packet: it comes in order, without SYN
      or RST, finds room for the stream or the stream itself unexpired, and fits. */
  ghost predicate Followed(streams: Streams, sofar: seq<byte>, start: uint32, p: IpPacket, now: int) {
    && !Bit(p.tcpFlags, 2) && !Bit(p.tcpFlags, 4)
    && (p.payload == [] ||
        var f := Frames(sofar);
        && p.tcpSequence == Advance(start, |sofar|)
        && (f.bad || |f.rest| + |p.payload| <= 8194)
        && (if sofar == [] then Admitted(streams, Key(p), now).Some?
            else Key(p) in streams && streams[Key(p)].expires > now))
  }

  /** So for all packets of the stream, a FIN only on the last one; packets of other
      streams may come anywhere in between. */
  ghost predicate FollowedAll(earlier: seq<(IpPacket, int)>, packets: seq<(IpPacket, int)>, start: uint32, k: StreamKey) {
    forall i :: 0 <= i < |packets| && Belongs(packets[i].0, k) ==>
      && Followed(Run(earlier + packets[..i]).streams, Payloads(packets[..i], k), start, packets[i].0, packets[i].1)
      && (i < |packets| - 1 ==> !Bit(packets[i].0.tcpFlags, 1))
  }

  /** The stored stream stands where the bytes so far end. */
  ghost predicate Stands(streams: Streams, k: StreamKey, start: uint32, sofar: seq<byte>) {
    k in streams ==>
      && sofar != [] && streams[k].invalid == Frames(sofar).bad
      && (!Frames(sofar).bad ==> streams[k].buffer == Frames(sofar).rest && streams[k].next == Advance(start, |sofar|))
  }

  /** Feeding a stream that stands there goes on with the framing. */
  lemma FeedStands(s: Stream, start: uint32, sofar: seq<byte>, payload: seq<byte>, now: int)
    requires s.invalid == Frames(sofar).bad
    requires !s.invalid ==> s.buffer == Frames(sofar).rest && s.next == Advance(start, |sofar|)
    requires s.invalid || |s.buffer| + |payload| <= 8194
    ensures var (s', messages) := Feed(s, Advance(start, |sofar|), payload, now);
            var f := Frames(sofar + payload);
            && Frames(sofar).messages + messages == f.messages && s'.invalid == f.bad
            && (!f.bad ==> s'.buffer == f.rest && s'.next == Advance(start, |sofar + payload|))
  {
    hide Frames;
    FramesContinue(sofar, payload);
    AdvanceTwice(start, |sofar|, |payload|);
  }

  /** A packet with payload that finds its stream or room for it. */
  lemma OwnOutput(streams: Streams, p: IpPacket, now: int)
    requires p.protocol == ProtoTCP && p.payload != [] && !Bit(p.tcpFlags, 2) && !Bit(p.tcpFlags, 4)
    requires Admitted(streams, Key(p), now).Some?
    ensures var again := Key(p) in streams && streams[Key(p)].expires > now;
            var before := if again then streams[Key(p)] else Stream(p.tcpSequence, [], now + TTL, false);
            var (s, messages) := Feed(before, p.tcpSequence, p.payload, now);
            && Observed(streams, p, now).1 == messages
            && (Key(p) in Observed(streams, p, now).0 ==> Observed(streams, p, now).0[Key(p)] == s)
  {
    hide Feed, Admitted, Taken, Found;
    AdmittedOwn(streams, Key(p), p.tcpSequence, now);
  }

  lemma FollowedStep(streams: Streams, k: StreamKey, start: uint32, sofar: seq<byte>, p: IpPacket, now: int)
    requires Stands(streams, k, start, sofar) && Belongs(p, k) && Followed(streams, sofar, start, p, now)
    ensures Frames(sofar).messages + Observed(streams, p, now).1 == Frames(sofar + p.payload).messages
    ensures Stands(Observed(streams, p, now).0, k, start, sofar + p.payload)
  {
    hide Frames, Admitted, Feed;
    if p.payload == [] {
      assert sofar + p.payload == sofar;
    } else {
      AdmittedOwn(streams, k, p.tcpSequence, now);
      FramesNone();
      OwnOutput(streams, p, now);
      var s := if sofar != [] then streams[k] else Stream(p.tcpSequence, [], now + TTL, false);
      FeedStands(s, start, sofar, p.payload, now);
      hide Observed;
    }
  }

  lemma StandsOthers(streams: Streams, k: StreamKey, start: uint32, sofar: seq<byte>, p: IpPacket, now: int)
    requires Stands(streams, k, start, sofar) && !Belongs(p, k)
    ensures Stands(Observed(streams, p, now).0, k, start, sofar)
  {
    if Key(p) != k && k in Observed(streams, p, now).0 {
      OthersUntouched(streams, p, now, k);
    }
    hide Frames, OnPayload;
  }

  /** In the observer, too, segmentation does not matter: while it follows a stream, the
      messages it returns for it are those of framing the stream's bytes as a whole,
      whatever it saw before and whatever other packets come in between. */
  lemma {:induction false} FollowedReassembles(earlier: seq<(IpPacket, int)>, packets: seq<(IpPacket, int)>, start: uint32, k: StreamKey)
    requires k !in Run(earlier).streams && FollowedAll(earlier, packets, start, k)
    ensures Returned(earlier, packets, k) == Frames(Payloads(packets, k)).messages
    ensures Stands(Run(earlier + packets).streams, k, start, Payloads(packets, k))
    decreases |packets|
  {
    hide Frames, Observed, Followed, Stands;
    if packets == [] {
      assert earlier + packets == earlier;
      FramesNone();
      NotStored(Run(earlier).streams, k, start);
    } else {
      var n := |packets| - 1;
      var before := packets[..n];
      var (p, now) := packets[n];
      forall i | 0 <= i < n ensures packets[..i] == before[..i] && packets[i] == before[i] {
      }
      FollowedReassembles(earlier, before, start, k);
      var streams := Run(earlier + before).streams;
      assert (earlier + packets)[..|earlier + packets| - 1] == earlier + before;
      if Belongs(p, k) {
        FollowedStep(streams, k, start, Payloads(before, k), p, now);
      } else {
        StandsOthers(streams, k, start, Payloads(before, k), p, now);
        assert Payloads(packets, k) == Payloads(before, k) && Returned(earlier, packets, k) == Returned(earlier, before, k);
      }
    }
  }

  lemma NotStored(streams: Streams, k: StreamKey, start: uint32)
    requires k !in streams
    ensures Stands(streams, k, start, [])
  {
  }

  // ---- Streams that cannot be followed ----

  /** A stored, unexpired stream is given up with a segment exactly when this leaves a gap or
      goes back over bytes taken, overfills the buffer, or completes an impossible length. */
  lemma GivenUpIff(streams: Streams, p: IpPacket, now: int)
    requires p.protocol == ProtoTCP && p.payload != [] && !Bit(p.tcpFlags, 2) && !Bit(p.tcpFlags, 4)
    requires Key(p) in streams && streams[Key(p)].expires > now && !streams[Key(p)].invalid
    ensures var s, s' := streams[Key(p)], Observed(streams, p, now).0;
            Key(p) in s' && s'[Key(p)].invalid <==>
              || (p.tcpSequence > s.next) || (p.tcpSequence < s.next && p.tcpSequence + |p.payload| > s.next)
              || (p.tcpSequence == s.next && (|s.buffer| + |p.payload| > 8194 || Frames(s.buffer + p.payload).bad))
  {
    hide Admitted, Frames, Found;
    AdmittedOwn(streams, Key(p), p.tcpSequence, now);
  }

  ghost predicate GivenUp(streams: Streams, k: StreamKey) {
    k in streams ==> streams[k].invalid
  }

  /** The packet is no new beginning for the stream: no SYN, no RST, no empty FIN, and the
      stream is stored and not expired. */
  predicate NoBeginning(streams: Streams, p: IpPacket, now: int) {
    && !Bit(p.tcpFlags, 2) && !Bit(p.tcpFlags, 4)
    && (p.payload == [] ==> !Bit(p.tcpFlags, 1))
    && (p.payload != [] ==> Key(p) in streams && streams[Key(p)].expires > now)
  }

  lemma GivenUpStep(streams: Streams, k: StreamKey, p: IpPacket, now: int)
    requires GivenUp(streams, k) && (Belongs(p, k) ==> NoBeginning(streams, p, now))
    ensures GivenUp(Observed(streams, p, now).0, k)
    ensures Belongs(p, k) ==> Observed(streams, p, now).1 == []
  {
    hide Admitted, Frames, Found;
    if Belongs(p, k) && p.payload != [] {
      AdmittedOwn(streams, k, p.tcpSequence, now);
    } else if Key(p) != k && k in Observed(streams, p, now).0 {
      OthersUntouched(streams, p, now, k);
    }
  }

  /** Once given up, a stream returns nothing until a new connection begins or it expires,
      however its segments go on and whatever comes in between. */
  lemma {:induction false} GivenUpIsSilent(earlier: seq<(IpPacket, int)>, packets: seq<(IpPacket, int)>, k: StreamKey)
    requires k in Run(earlier).streams && Run(earlier).streams[k].invalid
    requires forall i :: 0 <= i < |packets| && Belongs(packets[i].0, k) ==>
               NoBeginning(Run(earlier + packets[..i]).streams, packets[i].0, packets[i].1)
    ensures Returned(earlier, packets, k) == [] && GivenUp(Run(earlier + packets).streams, k)
    decreases |packets|
  {
    hide Observed, NoBeginning;
    if packets == [] {
      assert earlier + packets == earlier;
    } else {
      var n := |packets| - 1;
      var before := packets[..n];
      forall i | 0 <= i < n ensures packets[..i] == before[..i] && packets[i] == before[i] {
      }
      GivenUpIsSilent(earlier, before, k);
      assert (earlier + packets)[..|earlier + packets| - 1] == earlier + before;
      GivenUpStep(Run(earlier + before).streams, k, packets[n].0, packets[n].1);
    }
  }

  /** A RST, an empty SYN and an empty FIN forget the stream. */
  lemma Forgotten(streams: Streams, p: IpPacket, now: int)
    requires p.protocol == ProtoTCP && (Bit(p.tcpFlags, 4) || (p.payload == [] && (Bit(p.tcpFlags, 2) || Bit(p.tcpFlags, 1))))
    ensures Key(p) !in Observed(streams, p, now).0 && Observed(streams, p, now).1 == []
  {
    hide Bit;
  }
}
