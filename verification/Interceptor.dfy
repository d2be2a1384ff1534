/** The packet interceptor's TCP side on its own data: flow records shared by two
    maps and updated in place. Every method refines a step of Reflection. */
module Interceptor {
  import opened Bytes
  import opened Addresses
  import opened Packet
  import opened Repair
  import opened Rewrite
  import opened Synthesize
  import opened Reflection
  import FakeIp

  class TcpRedirect {
    ghost const id: nat
    const original: FlowKey
    const translated: Option<FlowKey>
    const action: Action
    const sequence: uint32
    var lastSeen: int
    var finished: Option<int>
    var accepted: bool
    var sentFIN: bool
    var receivedFIN: bool
    var conn: Option<nat>

    constructor (ghost id: nat, original: FlowKey, translated: Option<FlowKey>, action: Action, sequence: uint32, now: int)
      ensures Value() == Flow(id, original, translated, action, sequence, now, None, false, false, false)
    {
      this.id, this.original, this.translated := id, original, translated;
      this.action, this.sequence, lastSeen := action, sequence, now;
      finished, accepted, sentFIN, receivedFIN, conn := None, false, false, false, None;
    }

    /** interceptor.go:716-720, but for the hostname. */
    method See(p: IpPacket, now: int)
      modifies this
      ensures Value() == Changed(old(Value()), Touch(p), now)
    {
      lastSeen := now;
      if Bit(p.tcpFlags, 4) {
        finished := Some(now);
      }
    }

    /** interceptor_telemetry.go:88-99. */
    method Record(flags: byte, outbound: bool, now: int)
      modifies this
      ensures Value() == Changed(old(Value()), Track(flags, outbound), now)
    {
      lastSeen := now;
      if Bit(flags, 1) {
        if outbound {
          sentFIN := true;
        } else {
          receivedFIN := true;
        }
      }
      if Bit(flags, 4) || (sentFIN && receivedFIN) {
        finished := Some(now);
      }
    }

    ghost function Value(): Flow
      reads this
    {
      Flow(id, original, translated, action, sequence, lastSeen, finished, accepted, sentFIN, receivedFIN)
    }
  }

  /** All records of m are in s. */
  ghost predicate Within(m: map<FlowKey, TcpRedirect>, s: set<TcpRedirect>) {
    forall k :: k in m ==> m[k] in s
  }

  /** The records of one map as values; s holds them all. */
  ghost function Snapshot(m: map<FlowKey, TcpRedirect>, s: set<TcpRedirect>): FlowMap
    requires Within(m, s)
    reads s
  {
    map k | k in m :: m[k].Value()
  }

  lemma SnapshotSize(m: map<FlowKey, TcpRedirect>, s: set<TcpRedirect>)
    requires Within(m, s)
    ensures |Snapshot(m, s)| == |m|
  {
    assert |m| == |m.Keys| && |Snapshot(m, s)| == |Snapshot(m, s).Keys|;
    assert Snapshot(m, s).Keys == m.Keys;
  }

  lemma SnapshotAt(m: map<FlowKey, TcpRedirect>, s: set<TcpRedirect>, k: FlowKey)
    requires Within(m, s)
    ensures k in Snapshot(m, s) <==> k in m
    ensures k in m ==> m[k] in s && Snapshot(m, s)[k] == m[k].Value()
  {
  }

  lemma SnapshotAdd(m: map<FlowKey, TcpRedirect>, s: set<TcpRedirect>, k: FlowKey, f: TcpRedirect)
    requires Within(m, s)
    ensures Within(m[k := f], s + {f})
    ensures Snapshot(m[k := f], s + {f}) == Snapshot(m, s)[k := f.Value()]
  {
  }

  lemma SnapshotMore(m: map<FlowKey, TcpRedirect>, s: set<TcpRedirect>, f: TcpRedirect)
    requires Within(m, s)
    ensures Within(m, s + {f}) && Snapshot(m, s + {f}) == Snapshot(m, s)
  {
  }

  lemma SnapshotRemove(m: map<FlowKey, TcpRedirect>, s: set<TcpRedirect>, k: FlowKey)
    requires Within(m, s)
    ensures Within(m - {k}, s) && Snapshot(m - {k}, s) == Snapshot(m, s) - {k}
  {
  }

  /** One record changed in place since the snapshot old. */
  lemma SnapshotChanged(m: map<FlowKey, TcpRedirect>, s: set<TcpRedirect>, was: FlowMap, f: TcpRedirect)
    requires Within(m, s) && was.Keys == m.Keys
    requires forall k :: k in m ==> (was[k].id == f.id <==> m[k] == f)
    requires forall k :: k in m && m[k] != f ==> m[k].Value() == was[k]
    ensures Snapshot(m, s) == Replace(was, f.Value())
  {
  }

  lemma SnapshotApplied(m: map<FlowKey, TcpRedirect>, s: set<TcpRedirect>, was: FlowMap, f: TcpRedirect, c: Change, now: int)
    requires Within(m, s) && was.Keys == m.Keys
    requires forall k :: k in m ==> (was[k].id == f.id <==> m[k] == f)
    requires forall k :: k in m ==> m[k].Value() == if m[k] == f then Changed(was[k], c, now) else was[k]
    ensures Snapshot(m, s) == ChangeMap(was, f.id, c, now)
  {
    hide Bit;
  }

  lemma SnapshotSwept(m: map<FlowKey, TcpRedirect>, s: set<TcpRedirect>, n: map<FlowKey, TcpRedirect>, now: int)
    requires Within(m, s) && n == map k | k in m && !m[k].Value().Expired(now) :: m[k]
    ensures Within(n, s)
    ensures Snapshot(n, s) == map k | k in Snapshot(m, s) && !Snapshot(m, s)[k].Expired(now) :: Snapshot(m, s)[k]
  {
  }

  lemma SnapshotKept(m: map<FlowKey, TcpRedirect>, s: set<TcpRedirect>, n: map<FlowKey, TcpRedirect>, now: int)
    requires Within(m, s) && n == map k | k in m && !m[k].Value().Stale(now) :: m[k]
    ensures Within(n, s)
    ensures Snapshot(n, s) == map k | k in Snapshot(m, s) && !Snapshot(m, s)[k].Stale(now) :: Snapshot(m, s)[k]
  {
  }

  // ---- What the device gets ----

  /** Nothing, the word to let the captured packet go, or a packet to inject. */
  datatype Delivery = Nothing | Untouched | Injected(bytes: seq<byte>)

  /** The device's part of a verdict on the packet p parsed from d; `accepter` says
      that it can let captured packets go, else they are injected again, with their
      checksums repaired. */
  function Delivered(d: seq<byte>, p: IpPacket, verdict: Verdict, accepter: bool): Delivery {
    match verdict
    case Passed =>
      if accepter then Untouched
      else if Repairable(d, p.transportOffset, p.protocol) then Injected(Repaired(d, p.transportOffset, p.protocol))
      else Nothing
    case Dropped => Nothing
    case Abandoned(_) => Nothing
    case Answered => ResetDelivery(p)
    case Failed(_) => ResetDelivery(p)
    case Reinjected(s, t) => (match RewriteResult(d, s, t) case Ok(r) => Injected(r) case Err(_) => Nothing)
  }

  /** rejectTCP. */
  function ResetDelivery(p: IpPacket): Delivery {
    match TcpReset(p)
    case Ok(Some(r)) => Injected(r)
    case _ => Nothing
  }

  /** The packet's bytes after the delivery, which works on them in place. */
  function BytesAfter(d: seq<byte>, verdict: Verdict, delivery: Delivery): seq<byte> {
    if (verdict.Passed? || verdict.Reinjected?) && delivery.Injected? then delivery.bytes else d
  }

  lemma ParsedKey(d: seq<byte>)
    requires Parse(d).Ok? && Parse(d).value.protocol == ProtoTCP
    ensures WireKey(Key(Parse(d).value))
  {
    ParsedIsRepairable(d);
    hide OptionsError, Transport6;
  }

  /** A packet of a reflected flow is always rewritten, and arrives at the listener as
      the same segment with the translated endpoints. */
  lemma ReflectedBytes(config: Config, d: seq<byte>, f: Flow)
    requires Parse(d).Ok? && f.original == Key(Parse(d).value) && WellMade(f, config) && f.Reflected()
    ensures VerdictOf(f).Reinjected?
    ensures var p, v := Parse(d).value, VerdictOf(f);
            var r := RewriteResult(d, v.source, v.destination);
            && r.Ok? && FlowKey(ProtoTCP, v.source, v.destination) == Translate(Key(p), config)
            && Parse(r.value) == Ok(p.(bytes := r.value, source := v.source, destination := v.destination))
  {
    ParsedIsRepairable(d);
    var p, v := Parse(d).value, VerdictOf(f);
    assert EndpointPair(v.source, v.destination) == Ok((v.source, v.destination));
    SameFamily(d);
    hide Parse, Rewritten;
    RewriteParses(d, v.source, v.destination);
  }

  lemma SameFamily(d: seq<byte>)
    requires Parse(d).Ok?
    ensures Parse(d).value.source.addr.V4? == IsIPv4(d)
  {
    hide OptionsError, Transport6;
  }

  // ---- What the peers see of it ----

  /** The segment is refused: a RST goes unanswered, anything else gets RFC 9293's reset of
      section 3.5.2, from the destination back to the source. */
  ghost predicate IsReset(p: IpPacket, delivery: Delivery) {
    if Bit(p.tcpFlags, 4) then delivery == Nothing
    else
      delivery.Injected? &&
      var length := |p.payload| + (if Bit(p.tcpFlags, 2) then 1 else 0) + (if Bit(p.tcpFlags, 1) then 1 else 0);
      var q := IpPacket(delivery.bytes, p.destination, p.source, ProtoTCP,
                        if Bit(p.tcpFlags, 16) then 4 else 20,
                        if Bit(p.tcpFlags, 16) then p.tcpAck else 0,
                        if Bit(p.tcpFlags, 16) then 0 else (p.tcpSequence + length) % 0x1_0000_0000,
                        if p.source.addr.V4? then 20 else 40, []);
      Parse(delivery.bytes) == Ok(q) && Verifies(delivery.bytes, q)
  }

  /** Its checksums verify. */
  ghost predicate Verifies(d: seq<byte>, p: IpPacket) {
    Repairable(d, p.transportOffset, p.protocol) && ChecksumsValid(d, p.transportOffset, p.protocol)
  }

  /** The segment itself goes out: the captured one, or a copy with valid checksums that is
      otherwise the same bytes. */
  ghost predicate IsLetGo(d: seq<byte>, p: IpPacket, accepter: bool, delivery: Delivery) {
    if accepter then delivery == Untouched
    else
      && delivery.Injected? && Parse(delivery.bytes) == Ok(p.(bytes := delivery.bytes)) && Verifies(delivery.bytes, p)
      && d != [] && AgreeButChecksums(d, delivery.bytes, p.transportOffset, p.protocol)
  }

  /** The segment goes to the listener, with the client's port from the server's address. */
  ghost predicate IsReflected(config: Config, p: IpPacket, delivery: Delivery) {
    && delivery.Injected?
    && Parse(delivery.bytes) ==
       Ok(p.(bytes := delivery.bytes, source := AddrPort(p.destination.addr, p.source.port),
             destination := AddrPort(p.source.addr, if p.source.addr.V6? then config.port6 else config.port4)))
    && Verifies(delivery.bytes, p)
  }

  /** What a flow's action means for each of its outbound segments. */
  ghost predicate Follows(action: Action, config: Config, d: seq<byte>, p: IpPacket, accepter: bool, delivery: Delivery) {
    match action
    case Reject => IsReset(p, delivery)
    case Proxy => IsReflected(config, p, delivery)
    case Direct(handled) => if handled then IsReflected(config, p, delivery) else IsLetGo(d, p, accepter, delivery)
  }

  predicate Syn(p: IpPacket) {
    Bit(p.tcpFlags, 2) && !Bit(p.tcpFlags, 16)
  }

  /** The table has a flow for the segment, which is not the SYN of a new connection. */
  predicate Known(t: Table, p: IpPacket) {
    var key := FlowKey(ProtoTCP, p.source, p.destination);
    key in t.tcp && !(Syn(p) && t.tcp[key].sequence != p.tcpSequence)
  }

  /** A new flow with this action finds room; the flow that it replaces, if there is one,
      has gone before. */
  predicate HasRoom(t: Table, config: Config, p: IpPacket, action: Action) {
    var key := FlowKey(ProtoTCP, p.source, p.destination);
    var port := if p.source.addr.V6? then config.port6 else config.port4;
    var place := FlowKey(ProtoTCP, AddrPort(p.destination.addr, p.source.port), AddrPort(p.source.addr, port));
    var replaced := if key !in t.tcp then 0 else if t.tcp[key].action == Proxy || t.tcp[key].action == Direct(true) then 2 else 1;
    && |t.tcp| + |t.reverse| - replaced < 4 * config.maxFlows
    && (action == Proxy || action == Direct(true) ==> port != 0 && (place in t.reverse ==> t.reverse[place].original == key))
  }

  /** What outboundTCP sends for the segment p parsed from d. */
  ghost predicate SentAs(t: Table, config: Config, d: seq<byte>, p: IpPacket, choice: Choice, dropPlain: bool, accepter: bool, delivery: Delivery) {
    if Known(t, p) then Follows(t.tcp[FlowKey(ProtoTCP, p.source, p.destination)].action, config, d, p, accepter, delivery)
    else if !Syn(p) then if dropPlain then delivery == Nothing else IsLetGo(d, p, accepter, delivery)
    else match choice
      case ClassifyError => IsReset(p, delivery)
      case Passthrough => IsLetGo(d, p, accepter, delivery)
      case Bypass(remember) =>
        if !remember || HasRoom(t, config, p, Direct(false)) then IsLetGo(d, p, accepter, delivery) else delivery == Nothing
      case Route(action) =>
        if HasRoom(t, config, p, action) then Follows(action, config, d, p, accepter, delivery) else IsReset(p, delivery)
  }

  lemma ResetMeant(d: seq<byte>)
    requires Parse(d).Ok? && Parse(d).value.protocol == ProtoTCP
    ensures IsReset(Parse(d).value, ResetDelivery(Parse(d).value))
  {
    hide Parse, TcpReset;
    ResetOfParsed(d);
    if !Bit(Parse(d).value.tcpFlags, 4) {
      AnsweredMeant(d);
    }
    hide Verifies;
  }

  lemma AnsweredMeant(d: seq<byte>)
    requires Parse(d).Ok? && Parse(d).value.protocol == ProtoTCP && !Bit(Parse(d).value.tcpFlags, 4)
    ensures IsReset(Parse(d).value, ResetDelivery(Parse(d).value))
  {
    hide Parse, Repairable, ChecksumsValid, TcpReset, Rfc9293Reset, EndpointPair, Bit;
    var p := Parse(d).value;
    ResetOfParsed(d);
    ParsedEnds(d);
    TcpResetParses(p);
    ResetNumbers(p);
  }

  lemma ResetNumbers(p: IpPacket)
    ensures var length := |p.payload| + (if Bit(p.tcpFlags, 2) then 1 else 0) + (if Bit(p.tcpFlags, 1) then 1 else 0);
            Rfc9293Reset(p) == Reset(if Bit(p.tcpFlags, 16) then p.tcpAck else 0,
                                     if Bit(p.tcpFlags, 16) then 0 else (p.tcpSequence + length) % 0x1_0000_0000,
                                     if Bit(p.tcpFlags, 16) then 4 else 20)
  {
    hide Bit;
  }

  /** Addresses of a parsed packet are plain. */
  lemma ParsedEnds(d: seq<byte>)
    requires Parse(d).Ok?
    ensures var p := Parse(d).value;
            && EndpointPair(p.destination, p.source) == Ok((p.destination, p.source))
            && p.source.addr.V4? == p.destination.addr.V4? && !p.source.addr.NoAddr?
  {
    ParsedIsRepairable(d);
    hide OptionsError, Transport6;
  }

  lemma LetGoMeant(d: seq<byte>, accepter: bool)
    requires Parse(d).Ok?
    ensures IsLetGo(d, Parse(d).value, accepter, Delivered(d, Parse(d).value, Passed, accepter))
  {
    ParsedIsRepairable(d);
    hide Parse, Repaired, ChecksumsValid;
    var p := Parse(d).value;
    RepairedParses(d);
    RepairedKeepsEndpoints(d, p.transportOffset, p.protocol);
    hide Repairable;
  }

  lemma ReflectedMeant(config: Config, d: seq<byte>, f: Flow, accepter: bool)
    requires Parse(d).Ok? && Parse(d).value.protocol == ProtoTCP
    requires f.original == Key(Parse(d).value) && WellMade(f, config) && f.Reflected()
    ensures IsReflected(config, Parse(d).value, Delivered(d, Parse(d).value, VerdictOf(f), accepter))
  {
    hide Parse, WellMade, RewriteResult, ChecksumsValid, Repairable;
    ReflectedBytes(config, d, f);
    RewriteParses(d, VerdictOf(f).source, VerdictOf(f).destination);
  }

  lemma FollowsMeant(config: Config, d: seq<byte>, f: Flow, accepter: bool)
    requires Parse(d).Ok? && Parse(d).value.protocol == ProtoTCP
    requires f.original == Key(Parse(d).value) && WellMade(f, config)
    ensures Follows(f.action, config, d, Parse(d).value, accepter, Delivered(d, Parse(d).value, VerdictOf(f), accepter))
  {
    hide Parse, WellMade, IsReset, IsLetGo, IsReflected, ResetDelivery, Repaired, Repairable;
    if f.Reflected() {
      ReflectedMeant(config, d, f, accepter);
    } else if f.action == Reject {
      ResetMeant(d);
    } else {
      LetGoMeant(d, accepter);
    }
  }

  lemma DroppedSizes(t: Table, config: Config, key: FlowKey)
    requires Inv(t, config) && key in t.tcp
    ensures |Drop(t, key).tcp| + |Drop(t, key).reverse| == |t.tcp| + |t.reverse| - if t.tcp[key].Reflected() then 2 else 1
  {
    hide Inv, Translate, WireKey;
    InvParts(t, config, key);
    var t', f := Drop(t, key), t.tcp[key];
    assert t'.tcp.Keys == t.tcp.Keys - {key} && |t'.tcp| == |t'.tcp.Keys| && |t.tcp| == |t.tcp.Keys|;
    assert |t'.reverse| == |t'.reverse.Keys| && |t.reverse| == |t.reverse.Keys|;
    if f.Reflected() {
      assert t'.reverse.Keys == t.reverse.Keys - {f.translated.value};
    }
  }

  /** The place of a new flow in reverse is taken by another key's flow or free. */
  lemma PlaceOwner(t: Table, config: Config, p: IpPacket)
    requires Inv(t, config) && WireKey(Key(p)) && Syn(p) && !Known(t, p)
    ensures var t1, place := if Reuses(t, p) then Drop(t, Key(p)) else t, Translate(Key(p), config);
            place in t1.reverse <==> place in t.reverse && t.reverse[place].original != Key(p)
  {
    hide Inv, WireKey, Translate;
    var place := Translate(Key(p), config);
    if place in t.reverse {
      InvReverse(t, config, place);
    }
    if Key(p) in t.tcp {
      InvParts(t, config, Key(p));
    }
  }

  /** Registration succeeds exactly with room, behind the removal of a replaced flow. */
  lemma RoomIffRegistered(t: Table, config: Config, p: IpPacket, action: Action, now: int)
    requires Inv(t, config) && WireKey(Key(p)) && Syn(p) && !Known(t, p)
    ensures var t1 := if Reuses(t, p) then Drop(t, Key(p)) else t;
            var (t2, error) := Register(t1, config, Key(p), action, p.tcpSequence, now);
            (error.None? <==> HasRoom(t, config, p, action))
            && (error.None? ==> Key(p) in t2.tcp && t2.tcp[Key(p)].action == action && t2.tcp[Key(p)].original == Key(p)
                                && WellMade(t2.tcp[Key(p)], config))
  {
    if Reuses(t, p) {
      DroppedSizes(t, config, Key(p));
    }
    PlaceOwner(t, config, p);
    var t1 := if Reuses(t, p) then Drop(t, Key(p)) else t;
    RegisterIff(t1, config, p, action, now);
    hide Inv, WireKey, Drop, Register, WellMade;
  }

  lemma RegisterIff(t: Table, config: Config, p: IpPacket, action: Action, now: int)
    requires WireKey(Key(p))
    ensures var (t', error) := Register(t, config, Key(p), action, p.tcpSequence, now);
            && (error.None? <==>
                  && |t.tcp| + |t.reverse| < 4 * config.maxFlows
                  && (action == Proxy || action == Direct(true) ==>
                        ListenerPort(config, p.source.addr) != 0 && Translate(Key(p), config) !in t.reverse))
            && (error.None? ==> Key(p) in t'.tcp && t'.tcp[Key(p)].action == action && t'.tcp[Key(p)].original == Key(p)
                                && WellMade(t'.tcp[Key(p)], config))
  {
    hide WireKey;
  }

  /** The specification of outboundTCP sends what it means. */
  lemma SentMeant(t: Table, config: Config, d: seq<byte>, choice: Choice, dropPlain: bool, sent: bool, accepter: bool, now: int)
    requires Inv(t, config) && Parse(d).Ok? && Parse(d).value.protocol == ProtoTCP
    ensures var p := Parse(d).value;
            SentAs(t, config, d, p, choice, dropPlain, accepter, Delivered(d, p, Outbound(t, config, p, choice, dropPlain, sent, now).1, accepter))
  {
    var p := Parse(d).value;
    hide Parse, Delivered, Outbound, Inv, Follows;
    if Known(t, p) {
      SentKnown(t, config, d, choice, dropPlain, sent, accepter, now);
    } else if !Syn(p) {
      SentPlain(t, config, d, choice, dropPlain, sent, accepter, now);
    } else {
      SentDecided(t, config, d, choice, dropPlain, sent, accepter, now);
    }
    hide SentAs;
  }

  lemma SentKnown(t: Table, config: Config, d: seq<byte>, choice: Choice, dropPlain: bool, sent: bool, accepter: bool, now: int)
    requires Inv(t, config) && Parse(d).Ok? && Parse(d).value.protocol == ProtoTCP && Known(t, Parse(d).value)
    ensures var p := Parse(d).value;
            SentAs(t, config, d, p, choice, dropPlain, accepter, Delivered(d, p, Outbound(t, config, p, choice, dropPlain, sent, now).1, accepter))
  {
    var p := Parse(d).value;
    hide Parse, Follows, Delivered, VerdictOf, WellMade, Apply;
    InvParts(t, config, Key(p));
    FollowsMeant(config, d, t.tcp[Key(p)], accepter);
    hide Inv;
  }

  lemma SentPlain(t: Table, config: Config, d: seq<byte>, choice: Choice, dropPlain: bool, sent: bool, accepter: bool, now: int)
    requires Parse(d).Ok? && Parse(d).value.protocol == ProtoTCP && !Known(t, Parse(d).value) && !Syn(Parse(d).value)
    ensures var p := Parse(d).value;
            SentAs(t, config, d, p, choice, dropPlain, accepter, Delivered(d, p, Outbound(t, config, p, choice, dropPlain, sent, now).1, accepter))
  {
    hide Parse, IsLetGo, Outbound, Register;
    UnknownOutbound(t, config, Parse(d).value, choice, dropPlain, sent, now);
    LetGoMeant(d, accepter);
  }

  lemma SentDecided(t: Table, config: Config, d: seq<byte>, choice: Choice, dropPlain: bool, sent: bool, accepter: bool, now: int)
    requires Inv(t, config) && Parse(d).Ok? && Parse(d).value.protocol == ProtoTCP && !Known(t, Parse(d).value) && Syn(Parse(d).value)
    ensures var p := Parse(d).value;
            SentAs(t, config, d, p, choice, dropPlain, accepter, Delivered(d, p, Outbound(t, config, p, choice, dropPlain, sent, now).1, accepter))
  {
    hide Parse, IsLetGo, IsReset, Outbound, Register, Follows, HasRoom, VerdictOf, Inv, WellMade, WireKey, Drop, ResetDelivery, Repaired, Repairable;
    var p := Parse(d).value;
    ParsedKey(d);
    UnknownOutbound(t, config, p, choice, dropPlain, sent, now);
    LetGoMeant(d, accepter);
    ResetMeant(d);
    var action := if choice.Route? then choice.action else Direct(false);
    RoomIffRegistered(t, config, p, action, now);
    var t1 := if Reuses(t, p) then Drop(t, Key(p)) else t;
    var (t2, error) := Register(t1, config, Key(p), action, p.tcpSequence, now);
    if error.None? {
      FollowsMeant(config, d, t2.tcp[Key(p)], accepter);
    }
  }

  /** The verdict on a segment without a flow. */
  lemma UnknownOutbound(t: Table, config: Config, p: IpPacket, choice: Choice, dropPlain: bool, sent: bool, now: int)
    requires !Known(t, p)
    ensures var t1 := if Reuses(t, p) then Drop(t, Key(p)) else t;
            var action := if choice.Route? then choice.action else Direct(false);
            var (t2, error) := Register(t1, config, Key(p), action, p.tcpSequence, now);
            Outbound(t, config, p, choice, dropPlain, sent, now).1 ==
            if !Syn(p) then if dropPlain then Dropped else Passed
            else match choice
              case ClassifyError => Answered
              case Passthrough => Passed
              case Bypass(remember) => if remember && error.Some? then Abandoned(error.value) else Passed
              case Route(_) => if error.Some? then Failed(error.value) else if Key(p) in t2.tcp then VerdictOf(t2.tcp[Key(p)]) else Dropped
  {
    hide Register, VerdictOf, Apply;
  }

  class PacketInterceptor {
    const config: Config
    var tcp: map<FlowKey, TcpRedirect>
    var reverse: map<FlowKey, TcpRedirect>
    ghost var nextId: nat
    ghost var flows: set<TcpRedirect> // every record ever made

    ghost predicate Owned()
      reads this
    {
      Within(tcp, flows) && Within(reverse, flows)
    }

    ghost function Abs(): Table
      requires Owned()
      reads this, flows
    {
      Table(Snapshot(tcp, flows), Snapshot(reverse, flows), nextId)
    }

    /** One object for each number below nextId. */
    ghost predicate Identified()
      reads this
    {
      && (forall f, g :: f in flows && g in flows && f.id == g.id ==> f == g)
      && (forall f :: f in flows ==> f.id < nextId)
    }

    ghost predicate Valid()
      reads this, flows
    {
      Owned() && Identified() && Inv(Abs(), config)
    }

    constructor (config: Config)
      ensures Valid() && Abs() == EMPTY && this.config == config && flows == {}
    {
      this.config := config;
      tcp, reverse, nextId, flows := map[], map[], 0, {};
    }

    /** One record changed in place shows in both maps at once. */
    twostate lemma ChangedOne(f: TcpRedirect)
      requires old(Valid()) && f in flows
      requires tcp == old(tcp) && reverse == old(reverse) && nextId == old(nextId) && flows == old(flows)
      requires forall g :: g in flows && g != f ==> g.Value() == old(g.Value())
      ensures Owned() && Identified() && Abs() == Put(old(Abs()), f.Value())
    {
      hide Inv, Replace;
      SnapshotChanged(tcp, flows, old(Snapshot(tcp, flows)), f);
      SnapshotChanged(reverse, flows, old(Snapshot(reverse, flows)), f);
    }

    /** A record that is in no map can change unseen. */
    twostate lemma ChangedUnstored(f: TcpRedirect)
      requires old(Owned()) && tcp == old(tcp) && reverse == old(reverse) && nextId == old(nextId) && flows == old(flows)
      requires forall g :: g in flows && g != f ==> g.Value() == old(g.Value())
      requires forall k :: k in tcp ==> tcp[k] != f
      requires forall r :: r in reverse ==> reverse[r] != f
      ensures Owned() && Abs() == old(Abs())
    {
    }

    /** Port reuse, interceptor.go:626-640: the old record leaves both maps. */
    method Release(key: FlowKey, now: int)
      requires Valid() && key in tcp
      modifies this`tcp, this`reverse, tcp[key]
      ensures Valid() && Abs() == Drop(old(Abs()), key)
      ensures tcp == old(tcp) - {key} && flows == old(flows)
      ensures old(tcp[key]).finished == Some(now)
    {
      hide Inv, Snapshot;
      ghost var t := Abs();
      var flow := tcp[key];
      SnapshotAt(tcp, flows, key);
      InvParts(t, config, key);
      InvDrop(t, config, key);
      StoredUnder(flow);
      SnapshotRemove(tcp, flows, key);
      tcp := tcp - {key};
      if flow.translated.Some? {
        SnapshotRemove(reverse, flows, flow.translated.value);
        reverse := reverse - {flow.translated.value};
      }
      label removed:
      flow.finished := Some(now);
      flow.conn := None;
      ChangedUnstored@removed(flow);
    }

    /** A record is stored under its own keys only. */
    lemma StoredUnder(flow: TcpRedirect)
      requires Valid() && flow in tcp.Values
      ensures flow in flows && flow.original in tcp && tcp[flow.original] == flow
      ensures flow.original in Abs().tcp && Abs().tcp[flow.original] == flow.Value()
      ensures forall k :: k in tcp && tcp[k] == flow ==> k == flow.original
      ensures forall r :: r in reverse && reverse[r] == flow ==> Some(r) == flow.translated
    {
      hide Inv, WellMade, Snapshot;
      var t := Abs();
      forall k | k in tcp && tcp[k] == flow ensures k == flow.original {
        SnapshotAt(tcp, flows, k);
        InvParts(t, config, k);
      }
      forall r | r in reverse && reverse[r] == flow ensures Some(r) == flow.translated {
        SnapshotAt(reverse, flows, r);
        InvReverse(t, config, r);
      }
      SnapshotAt(tcp, flows, flow.original);
    }

    /** The record of a reverse entry, also found in tcp. */
    lemma ReverseStored(r: FlowKey)
      requires Valid() && r in reverse
      ensures var f := reverse[r].Value();
              Abs().reverse[r] == f && f.original in Abs().tcp && Abs().tcp[f.original] == f
      ensures Successor(Abs(), reverse[r].Value())
    {
      hide Inv, WellMade, Snapshot;
      SnapshotAt(reverse, flows, r);
      InvReverse(Abs(), config, r);
    }

    /** The swapped endpoints with the listener's port, interceptor.go:798-808. */
    method Reflect(key: FlowKey, port: uint16) returns (translated: FlowKey)
      requires port == ListenerPort(config, key.source.addr)
      ensures translated == Translate(key, config)
    {
      translated := FlowKey(ProtoTCP, AddrPort(key.destination.addr, key.source.port), AddrPort(key.source.addr, port));
    }

    /** registerTCP's choice of the translated key, interceptor.go:791-811. */
    method Translation(key: FlowKey, action: Action) returns (translated: Option<FlowKey>, error: Option<TableError>)
      ensures var reflected := action == Proxy || action == Direct(true);
              && error == (if !reflected then None
                           else if ListenerPort(config, key.source.addr) == 0 then Some(NoListener)
                           else if Translate(key, config) in reverse then Some(FlowCapacity)
                           else None)
              && (error.None? ==> translated == if reflected then Some(Translate(key, config)) else None)
    {
      hide Translate;
      if action != Proxy && action != Direct(true) {
        return None, None;
      }
      var port := ListenerPort(config, key.source.addr);
      if port == 0 {
        return None, Some(NoListener);
      }
      var reflected := Reflect(key, port);
      return Some(reflected), if reflected in reverse then Some(FlowCapacity) else None;
    }

    /** A new record enters tcp and, if it is reflected, reverse. */
    method Store(flow: TcpRedirect)
      requires Valid() && WellMade(flow.Value(), config) && flow.id == nextId
      requires flow.original !in tcp && (flow.translated.Some? ==> flow.translated.value !in reverse)
      requires |tcp| + |reverse| < 4 * config.maxFlows
      modifies this`tcp, this`reverse, this`nextId, this`flows
      ensures Valid() && Abs() == Added(old(Abs()), flow.Value())
      ensures flow.original in tcp && tcp[flow.original] == flow && flows == old(flows) + {flow}
    {
      hide Inv, Snapshot, WellMade, Within;
      ghost var t := Abs();
      StoreFits(flow);
      InvAdded(t, config, flow.Value());
      SnapshotAdd(tcp, flows, flow.original, flow);
      if flow.translated.Some? {
        SnapshotAdd(reverse, flows, flow.translated.value, flow);
        reverse := reverse[flow.translated.value := flow];
      } else {
        SnapshotMore(reverse, flows, flow);
      }
      tcp := tcp[flow.original := flow];
      nextId, flows := nextId + 1, flows + {flow};
      assert Abs() == Added(t, flow.Value());
      hide Added;
    }

    lemma StoreFits(flow: TcpRedirect)
      requires Valid() && flow.original !in tcp && (flow.translated.Some? ==> flow.translated.value !in reverse)
      requires |tcp| + |reverse| < 4 * config.maxFlows
      ensures |Abs().tcp| + |Abs().reverse| < 4 * config.maxFlows && flow.original !in Abs().tcp
      ensures flow.translated.Some? ==> flow.translated.value !in Abs().reverse
    {
      SnapshotSize(tcp, flows);
      SnapshotSize(reverse, flows);
    }

    method RegisterTCP(key: FlowKey, action: Action, sequence: uint32, now: int) returns (error: Option<TableError>)
      requires Valid() && WireKey(key) && key !in tcp
      modifies this`tcp, this`reverse, this`nextId, this`flows
      ensures Valid() && (Abs(), error) == Register(old(Abs()), config, key, action, sequence, now)
      ensures error.None? ==> key in tcp && fresh(tcp[key]) && flows == old(flows) + {tcp[key]}
      ensures error.Some? ==> flows == old(flows) && tcp == old(tcp)
    {
      hide Inv, WireKey, Snapshot, Translate, Within, Identified;
      SnapshotAt(reverse, flows, Translate(key, config));
      SnapshotSize(tcp, flows);
      SnapshotSize(reverse, flows);
      if |tcp| + |reverse| >= 4 * config.maxFlows {
        return Some(FlowCapacity);
      }
      var translated;
      translated, error := Translation(key, action);
      if error.Some? {
        return;
      }
      var flow := new TcpRedirect(nextId, key, translated, action, sequence, now);
      Store(flow);
    }

    /** trackDirectTCP's section, on a record that may have left the maps. */
    method TrackDirectTCP(flow: TcpRedirect, p: IpPacket, outbound: bool, now: int)
      requires Valid() && flow in flows
      modifies flow
      ensures Valid() && Abs() == Apply(old(Abs()), flow.id, Track(p.tcpFlags, outbound), now)
    {
      hide Inv, WellMade, Bit, Changed;
      var c := Track(p.tcpFlags, outbound);
      InvApply(Abs(), config, flow.id, c, now);
      flow.Record(c.flags, outbound, now);
      SnapshotApplied(tcp, flows, old(Snapshot(tcp, flows)), flow, c, now);
      SnapshotApplied(reverse, flows, old(Snapshot(reverse, flows)), flow, c, now);
    }

    /** interceptor.go:715-721, on a record that may have left the maps. */
    method TouchTCP(flow: TcpRedirect, p: IpPacket, now: int)
      requires Valid() && flow in flows
      modifies flow
      ensures Valid() && Abs() == Apply(old(Abs()), flow.id, Touch(p), now)
    {
      hide Inv, WellMade, Bit, Changed;
      InvApply(Abs(), config, flow.id, Touch(p), now);
      flow.See(p, now);
      SnapshotApplied(tcp, flows, old(Snapshot(tcp, flows)), flow, Touch(p), now);
      SnapshotApplied(reverse, flows, old(Snapshot(reverse, flows)), flow, Touch(p), now);
    }

    /** sendPacket, but for DNS observation. */
    method SendPacket(data: array<byte>, ghost p: IpPacket, offset: nat, protocol: Protocol, accepter: bool) returns (delivery: Delivery)
      requires Parse(data[..]) == Ok(p) && offset == p.transportOffset && protocol == p.protocol
      modifies data
      ensures delivery == Delivered(old(data[..]), p, Passed, accepter)
      ensures data[..] == BytesAfter(old(data[..]), Passed, delivery) && delivery != Nothing
    {
      ParsedIsRepairable(data[..]);
      hide Parse, Repaired, Repairable;
      if accepter {
        return Untouched;
      }
      RepairPacketChecksums(data, offset, protocol);
      return Injected(data[..]);
    }

    method RejectTCP(p: IpPacket) returns (delivery: Delivery)
      ensures delivery == ResetDelivery(p)
    {
      hide TcpReset;
      var r := MakeTCPReset(p);
      return if r.Ok? && r.value.Some? then Injected(r.value.value) else Nothing;
    }

    /** interceptor.go:715-746 for the flow of this packet, on the packet's bytes. */
    method ForwardTCP(data: array<byte>, flow: TcpRedirect, p: IpPacket, sent: bool, accepter: bool, now: int)
      returns (verdict: Verdict, delivery: Delivery)
      requires Valid() && flow in flows && Parse(data[..]) == Ok(p) && p.protocol == ProtoTCP
      requires flow.original == Key(p) && WellMade(flow.Value(), config)
      modifies flow, data
      ensures Valid() && (Abs(), verdict) == Forward(old(Abs()), old(flow.Value()), p, sent, now)
      ensures delivery == Delivered(old(data[..]), p, verdict, accepter)
      ensures data[..] == BytesAfter(old(data[..]), verdict, delivery)
      ensures verdict.Reinjected? ==> delivery.Injected?
      ensures Follows(flow.action, config, old(data[..]), p, accepter, delivery)
    {
      hide Inv, WellMade, Snapshot, Apply, Parse, RewriteResult, ResetDelivery, Translate, Repaired, Follows;
      ghost var d := data[..];
      FollowsMeant(config, d, flow.Value(), accepter);
      if flow.action == Proxy || flow.action == Direct(true) {
        ReflectedBytes(config, d, flow.Value());
      }
      TouchTCP(flow, p, now);
      label touched:
      if flow.action == Reject {
        delivery := RejectTCP(p);
        return Answered, delivery;
      }
      if flow.action == Direct(false) {
        delivery := SendPacket(data, p, p.transportOffset, p.protocol, accepter);
        assert forall g: TcpRedirect :: g in flows ==> unchanged@touched(g);
        if sent {
          TrackDirectTCP(flow, p, true, now);
        }
        return Passed, delivery;
      }
      var error := RewriteIPPacket(data, flow.translated.value.source, flow.translated.value.destination);
      assert forall g: TcpRedirect :: g in flows ==> unchanged@touched(g);
      return Reinjected(flow.translated.value.source, flow.translated.value.destination), Injected(data[..]);
    }

    /** outboundTCP on the packet's bytes, when no other thread comes in between. */
    method OutboundTCP(data: array<byte>, p: IpPacket, choice: Choice, dropPlain: bool, sent: bool, accepter: bool, now: int)
      returns (verdict: Verdict, delivery: Delivery)
      requires Valid() && Parse(data[..]) == Ok(p) && p.protocol == ProtoTCP
      modifies this`tcp, this`reverse, this`nextId, this`flows, flows, data
      ensures Valid() && (Abs(), verdict) == Outbound(old(Abs()), config, p, choice, dropPlain, sent, now)
      ensures fresh(flows - old(flows)) && old(flows) <= flows
      ensures delivery == Delivered(old(data[..]), p, verdict, accepter)
      ensures data[..] == BytesAfter(old(data[..]), verdict, delivery)
      ensures verdict.Reinjected? ==> delivery.Injected?
      ensures SentAs(old(Abs()), config, old(data[..]), p, choice, dropPlain, accepter, delivery)
    {
      hide Inv, WellMade, Forward, Register, Snapshot, Drop, Parse, Delivered, BytesAfter, WireKey, Within, SentAs, Known, Follows;
      SentMeant(Abs(), config, data[..], choice, dropPlain, sent, accepter, now);
      ParsedKey(data[..]);
      SnapshotAt(tcp, flows, Key(p));
      var key := FlowKey(ProtoTCP, p.source, p.destination);
      var syn := Bit(p.tcpFlags, 2) && !Bit(p.tcpFlags, 16);
      if key in tcp && syn && tcp[key].sequence != p.tcpSequence {
        Release(key, now);
        SnapshotAt(tcp, flows, key);
      }
      if key in tcp {
        StoredParts(key);
        verdict, delivery := ForwardTCP(data, tcp[key], p, sent, accepter, now);
        return;
      }
      if !syn {
        verdict := if dropPlain then Dropped else Passed;
        delivery := Deliver(data, p, verdict, accepter);
        return;
      }
      verdict, delivery := DecideTCP(data, p, key, choice, sent, accepter, now);
    }

    /** The record of a key is well made. */
    lemma StoredParts(key: FlowKey)
      requires Valid() && key in tcp
      ensures tcp[key] in flows && tcp[key].original == key && WellMade(tcp[key].Value(), config)
      ensures key in Abs().tcp && Abs().tcp[key] == tcp[key].Value()
    {
      hide Inv, WellMade, Snapshot;
      SnapshotAt(tcp, flows, key);
      InvParts(Abs(), config, key);
    }

    /** What is sent when no flow forwards the packet. */
    method Deliver(data: array<byte>, p: IpPacket, verdict: Verdict, accepter: bool) returns (delivery: Delivery)
      requires Parse(data[..]) == Ok(p) && !verdict.Reinjected?
      modifies data
      ensures delivery == Delivered(old(data[..]), p, verdict, accepter)
      ensures data[..] == BytesAfter(old(data[..]), verdict, delivery)
    {
      hide Parse, ResetDelivery, Repaired;
      match verdict {
        case Passed => delivery := SendPacket(data, p, p.transportOffset, p.protocol, accepter);
        case Answered => delivery := RejectTCP(p);
        case Failed(_) => delivery := RejectTCP(p);
        case _ => delivery := Nothing;
      }
    }

    /** outboundTCP for a SYN without a flow, from the policy's decision on. */
    method DecideTCP(data: array<byte>, p: IpPacket, key: FlowKey, choice: Choice, sent: bool, accepter: bool, now: int)
      returns (verdict: Verdict, delivery: Delivery)
      requires Valid() && Parse(data[..]) == Ok(p) && p.protocol == ProtoTCP && WireKey(key)
      requires key == Key(p) && key !in tcp && IsSyn(p)
      modifies this`tcp, this`reverse, this`nextId, this`flows, flows, data
      ensures Valid() && (Abs(), verdict) == Outbound(old(Abs()), config, p, choice, false, sent, now)
      ensures fresh(flows - old(flows)) && old(flows) <= flows
      ensures delivery == Delivered(old(data[..]), p, verdict, accepter)
      ensures data[..] == BytesAfter(old(data[..]), verdict, delivery)
      ensures verdict.Reinjected? ==> delivery.Injected?
    {
      hide Inv, WellMade, Forward, Register, Snapshot, Drop, Parse, Delivered, BytesAfter, WireKey, Within;
      SnapshotAt(tcp, flows, key);
      if choice.Route? || choice == Bypass(true) {
        var error := RegisterTCP(key, if choice.Route? then choice.action else Direct(false), p.tcpSequence, now);
        SnapshotAt(tcp, flows, key);
        if choice.Route? && error.None? {
          StoredParts(key);
          verdict, delivery := ForwardTCP(data, tcp[key], p, sent, accepter, now);
          return;
        }
        verdict := if error.None? then Passed else if choice.Route? then Failed(error.value) else Abandoned(error.value);
      } else {
        verdict := if choice.ClassifyError? then Answered else Passed;
      }
      label registered:
      delivery := Deliver(data, p, verdict, accepter);
      assert forall g: TcpRedirect :: g in flows ==> unchanged@registered(g);
    }

    /** returnTCP on the bytes of a listener packet, rewritten in place. */
    method ReturnTCP(data: array<byte>, p: IpPacket, now: int) returns (injected: bool)
      requires Valid() && Parse(data[..]) == Ok(p) && p.protocol == ProtoTCP
      modifies flows, data
      ensures Valid() && Abs() == Return(old(Abs()), p, now).0
      ensures match Return(old(Abs()), p, now).1
              case None => !injected && data[..] == old(data[..])
              case Some((source, destination)) =>
                injected && RewriteResult(old(data[..]), source, destination) == Ok(data[..])
    {
      hide Inv, WellMade, Parse, RewriteResult, Snapshot, Put;
      SnapshotAt(reverse, flows, FlowKey(ProtoTCP, p.destination, p.source));
      ghost var t, d := Abs(), data[..];
      var key := FlowKey(ProtoTCP, p.destination, p.source);
      if key !in reverse {
        return false;
      }
      var flow := reverse[key];
      ReverseStored(key);
      InvReplace(t, config, flow.Value().(lastSeen := now));
      ReplyBytes(t, config, d, now);
      flow.lastSeen := now;
      ChangedOne(flow);
      label touched:
      var error := RewriteIPPacket(data, flow.original.destination, flow.original.source);
      assert forall g: TcpRedirect :: g in flows ==> unchanged@touched(g);
      return true;
    }

    /** One accepted listener connection; the connection is closed unless bound. */
    method AcceptTCP(remote: AddrPort, local: AddrPort, stopped: bool, conn: nat) returns (flow: TcpRedirect?)
      requires Valid()
      modifies flows
      ensures Valid()
      ensures var (t, id) := Accept(old(Abs()), FlowKey(ProtoTCP, remote, local), stopped);
              && Abs() == t
              && (flow == null <==> id.None?)
              && (flow != null ==> flow.id == id.value && flow.conn == Some(conn) && flow in flows)
    {
      hide Inv, WellMade, Snapshot, Put;
      var key := FlowKey(ProtoTCP, remote, local);
      SnapshotAt(reverse, flows, key);
      if stopped || key !in reverse || reverse[key].accepted || reverse[key].finished.Some? {
        return null;
      }
      flow := reverse[key];
      ReverseStored(key);
      InvReplace(Abs(), config, flow.Value().(accepted := true));
      flow.accepted, flow.conn := true, Some(conn);
      ChangedOne(flow);
    }

    /** The end of a forwarding goroutine; its record may be gone from the maps. */
    method FinishTCP(flow: TcpRedirect, now: int)
      requires Valid() && flow in flows
      modifies flow
      ensures Valid() && Abs() == Finish(old(Abs()), flow.id, now)
    {
      hide Inv;
      InvApply(Abs(), config, flow.id, End, now);
      flow.finished := Some(now);
      flow.conn := None;
      SnapshotApplied(tcp, flows, old(Snapshot(tcp, flows)), flow, End, now);
      SnapshotApplied(reverse, flows, old(Snapshot(reverse, flows)), flow, End, now);
    }

    method InboundTCP(p: IpPacket, now: int)
      requires Valid()
      modifies flows
      ensures Valid() && Abs() == Inbound(old(Abs()), p, now)
    {
      hide Inv, WellMade, Snapshot, Apply;
      var key := FlowKey(ProtoTCP, p.destination, p.source);
      SnapshotAt(tcp, flows, key);
      if key in tcp && tcp[key].action == Direct(false) {
        TrackDirectTCP(tcp[key], p, false, now);
      }
    }

    /** sweepTCP's first loop, in whatever order Go visits the map. */
    method SweptForward(m: map<FlowKey, TcpRedirect>, now: int) returns (n: map<FlowKey, TcpRedirect>)
      ensures n == map k | k in m && !m[k].Value().Expired(now) :: m[k]
    {
      n := m;
      var keys := m.Keys;
      while keys != {}
        invariant keys <= m.Keys
        invariant n == map k | k in m && (k in keys || !m[k].Value().Expired(now)) :: m[k]
        decreases keys
      {
        var k :| k in keys;
        keys := keys - {k};
        var flow := m[k];
        if flow.action == Direct(false) && flow.finished.None? {
          continue;
        }
        if (flow.finished.Some? && now - flow.finished.value > IDLE) || (!flow.accepted && now - flow.lastSeen > IDLE) {
          n := n - {k};
        }
      }
    }

    /** sweepTCP's second loop. */
    method SweptReverse(m: map<FlowKey, TcpRedirect>, now: int) returns (n: map<FlowKey, TcpRedirect>)
      ensures n == map k | k in m && !m[k].Value().Stale(now) :: m[k]
    {
      n := m;
      var keys := m.Keys;
      while keys != {}
        invariant keys <= m.Keys
        invariant n == map k | k in m && (k in keys || !m[k].Value().Stale(now)) :: m[k]
        decreases keys
      {
        var k :| k in keys;
        keys := keys - {k};
        var flow := m[k];
        if (flow.finished.Some? && now - flow.finished.value > IDLE) || (!flow.accepted && now - flow.lastSeen > IDLE) {
          n := n - {k};
        }
      }
    }

    method SweepTCP(now: int)
      requires Valid()
      modifies this`tcp, this`reverse
      ensures Valid() && Abs() == Sweep(old(Abs()), now)
    {
      hide Inv, Snapshot;
      ghost var t := Abs();
      InvSweep(t, config, now);
      var left := SweptForward(tcp, now);
      SnapshotSwept(tcp, flows, left, now);
      var kept := SweptReverse(reverse, now);
      SnapshotKept(reverse, flows, kept, now);
      assert Table(Snapshot(left, flows), Snapshot(kept, flows), nextId) == Sweep(t, now);
      tcp, reverse := left, kept;
      assert Abs() == Sweep(t, now);
    }

    /** sweepDirectTCP's second look at one candidate. */
    method SweepDirectTCP(key: FlowKey, candidate: TcpRedirect, seen: int)
      requires Valid() && candidate in flows && candidate.action == Direct(false)
      modifies this`tcp
      ensures Valid() && Abs() == SweepDirect(old(Abs()), key, candidate.id, seen)
    {
      hide Inv, Snapshot;
      SnapshotAt(tcp, flows, key);
      InvSweepDirect(Abs(), config, key, candidate.id, seen);
      if key in tcp && tcp[key] == candidate && candidate.lastSeen == seen {
        SnapshotRemove(tcp, flows, key);
        tcp := tcp - {key};
      }
    }
  }

  // ---- Which packets reach returnTCP ----

  /** The server's DNS modes, and what its other guards say of an outbound packet. */
  datatype Settings = Settings(fakeIP: bool, proxyDNS: bool)

  datatype Guards = Guards(relayDestination: bool, localOnly: bool, exemptDNS: bool)

  datatype Branch =
    | ToRelay | ToDnsUdp | ToOutbound | EncryptedDns | StaleFakeIP | ToReturn | ToDirect | ToUdp

  predicate EncryptedDnsPort(port: uint16) {
    port == 853 || port == 784 || port == 8853
  }

  /** fakeIPDestination, server.go:349-351. */
  predicate FakeDestination(s: FakeIp.State, settings: Settings, a: Addr) {
    FakeIp.IsFakeIP(a) && (settings.fakeIP || FakeIp.WasIssued(s, a))
  }

  /** handlePacket, interceptor.go:378-451, for a parsed outbound packet, with the
      allocator's table as it is then. */
  function Dispatch(p: IpPacket, s: FakeIp.State, settings: Settings, guards: Guards, config: Config, now: int): Branch {
    var dns, fake := p.destination.port == 53, FakeDestination(s, settings, p.destination.addr);
    if !dns && !fake && guards.relayDestination then ToRelay
    else if (settings.fakeIP || settings.proxyDNS) && dns then if p.protocol == ProtoUDP then ToDnsUdp else ToOutbound
    else if settings.fakeIP && EncryptedDnsPort(p.destination.port) then EncryptedDns
    else if fake && (!settings.fakeIP || FakeIp.Lookup(s, p.destination.addr, now).None?) then StaleFakeIP
    else if p.protocol == ProtoTCP && ListenerPort(config, p.source.addr) != 0
            && p.source.port == ListenerPort(config, p.source.addr) then ToReturn
    else if (!fake && guards.localOnly) || guards.exemptDNS then ToDirect
    else if p.protocol == ProtoTCP then ToOutbound
    else ToUdp
  }

  /** A listener's answer to a live flow reaches returnTCP, and so the client, if and
      only if no earlier guard claims it. For a flow to a synthetic address that is:
      the FakeIP mode is still on, and the address can still be looked up. */
  lemma ReplyDispatched(t: Table, config: Config, k: FlowKey, q: IpPacket, s: FakeIp.State, settings: Settings, guards: Guards, now: int)
    requires Inv(t, config) && k in t.tcp && t.tcp[k].Reflected()
    requires q.protocol == ProtoTCP && Translate(k, config) == FlowKey(ProtoTCP, q.destination, q.source)
    ensures var fake := FakeDestination(s, settings, k.destination.addr);
            Dispatch(q, s, settings, guards, config, now) == ToReturn <==>
            && (fake ==> settings.fakeIP && FakeIp.Lookup(s, k.destination.addr, now).Some?)
            && (guards.relayDestination ==> fake || k.source.port == 53)
            && (settings.fakeIP || settings.proxyDNS ==> k.source.port != 53)
            && (settings.fakeIP ==> !EncryptedDnsPort(k.source.port))
    ensures Return(t, q, now).1 == Some((k.destination, k.source))
  {
    hide Inv, WireKey, Translate, Dispatch, Return, FakeDestination, FakeIp.Lookup;
    InvParts(t, config, k);
    ReplyRestoresFlow(t, config, q, now);
    TranslatedFields(config, k);
    DispatchedReply(q, s, settings, guards, config, now);
  }

  lemma TranslatedFields(config: Config, k: FlowKey)
    ensures var r := Translate(k, config);
            && r.source == AddrPort(k.destination.addr, k.source.port) && r.destination.addr == k.source.addr
            && r.destination.port == ListenerPort(config, k.source.addr)
  {
  }

  /** A packet from the listener's port, and the guards before returnTCP. */
  lemma DispatchedReply(q: IpPacket, s: FakeIp.State, settings: Settings, guards: Guards, config: Config, now: int)
    requires q.protocol == ProtoTCP && q.source.port == ListenerPort(config, q.source.addr) != 0
    ensures var fake := FakeDestination(s, settings, q.destination.addr);
            Dispatch(q, s, settings, guards, config, now) == ToReturn <==>
            && (fake ==> settings.fakeIP && FakeIp.Lookup(s, q.destination.addr, now).Some?)
            && (guards.relayDestination ==> fake || q.destination.port == 53)
            && (settings.fakeIP || settings.proxyDNS ==> q.destination.port != 53)
            && (settings.fakeIP ==> !EncryptedDnsPort(q.destination.port))
  {
    hide FakeDestination, FakeIp.Lookup;
  }

  /** The client's own packets on that flow: to be forwarded they pass the same guards,
      and from the moment the address cannot be looked up they are rejected as well. */
  lemma ClientDispatched(t: Table, config: Config, k: FlowKey, p: IpPacket, s: FakeIp.State, settings: Settings, guards: Guards, now: int)
    requires Inv(t, config) && k in t.tcp && t.tcp[k].Reflected() && p.protocol == ProtoTCP && Key(p) == k
    ensures var fake := FakeDestination(s, settings, k.destination.addr);
            var dns := k.destination.port == 53;
            var stale := fake && !(settings.fakeIP && FakeIp.Lookup(s, k.destination.addr, now).Some?);
            var before := (settings.fakeIP || settings.proxyDNS) && dns;
            var encrypted := settings.fakeIP && EncryptedDnsPort(k.destination.port);
            var relay := guards.relayDestination && !fake && !dns;
            && (Dispatch(p, s, settings, guards, config, now) == ToOutbound <==>
                  && !relay
                  && (before || (!encrypted && !stale && k.source.port != ListenerPort(config, k.source.addr)
                                 && !(guards.localOnly && !fake) && !guards.exemptDNS)))
            && (Dispatch(p, s, settings, guards, config, now) == StaleFakeIP <==> stale && !before && !encrypted)
    ensures forall choice, dropPlain, sent :: !IsSyn(p) ==>
              Outbound(t, config, p, choice, dropPlain, sent, now).1 == Reinjected(Translate(k, config).source, Translate(k, config).destination)
  {
    InvParts(t, config, k);
    ListenerGiven(t, config, k);
    ForwardedTo(t, config, k, p, now);
    hide Inv, WireKey, Translate, Outbound, FakeDestination, FakeIp.Lookup;
  }

  lemma ListenerGiven(t: Table, config: Config, k: FlowKey)
    requires Inv(t, config) && k in t.tcp && t.tcp[k].Reflected()
    ensures ListenerPort(config, k.source.addr) != 0
  {
  }

  lemma ForwardedTo(t: Table, config: Config, k: FlowKey, p: IpPacket, now: int)
    requires Inv(t, config) && k in t.tcp && t.tcp[k].Reflected() && Key(p) == k
    ensures forall choice, dropPlain, sent :: !IsSyn(p) ==>
              Outbound(t, config, p, choice, dropPlain, sent, now).1 == Reinjected(Translate(k, config).source, Translate(k, config).destination)
  {
  }

  // ---- A connection that is cut off ----

  const CLIENT := AddrPort(V4([10, 0, 0, 1]), 4000)
  const SERVER := AddrPort(V4([198, 18, 0, 1]), 443)
  const LISTENER := AddrPort(V4([10, 0, 0, 1]), 7000)

  /** The first name asked for gets the first address, for fifteen minutes. */
  lemma FirstLease(now: int)
    ensures var s := FakeIp.Run([FakeIp.Request("a.example", FakeIp.A, "", false, 0)]).s;
            && FakeIp.IsFakeIP(SERVER.addr) && FakeIp.WasIssued(s, SERVER.addr)
            && (FakeIp.Lookup(s, SERVER.addr, now).Some? <==> now < FakeIp.LEASE)
  {
    FakeIp.MappedNotIssued();
    FakeIp.FirstRun();
  }

  /** The flow of a client to that address: opened, accepted by the listener, and
      swept over at the time the lease ends. */
  lemma FlowOutlivesLease()
    ensures var config := Config(1000, 7000, 7000);
            var t1 := Outbound(EMPTY, config, Segment(CLIENT, SERVER, 2, 100), Route(Proxy), false, true, 1).0;
            var t2 := Accept(t1, FlowKey(ProtoTCP, AddrPort(SERVER.addr, CLIENT.port), LISTENER), false).0;
            var t := Sweep(t2, FakeIp.LEASE);
            var k := FlowKey(ProtoTCP, CLIENT, SERVER);
            && Inv(t, config) && k in t.tcp && t.tcp[k].Reflected()
            && Translate(k, config) == FlowKey(ProtoTCP, AddrPort(SERVER.addr, CLIENT.port), LISTENER)
  {
    var config := Config(1000, 7000, 7000);
    var syn := Segment(CLIENT, SERVER, 2, 100);
    var k := FlowKey(ProtoTCP, CLIENT, SERVER);
    FirstSyn(EMPTY, config, syn, 1);
    NothingStored(config);
    InvOutbound(EMPTY, config, syn, Route(Proxy), false, true, 1);
    hide Outbound, Inv;
    var t1 := Outbound(EMPTY, config, syn, Route(Proxy), false, true, 1).0;
    var r := Translate(k, config);
    InvAccept(t1, config, r, false);
    var t2 := Accept(t1, r, false).0;
    assert t2.tcp[k].accepted && t2.tcp[k].finished.None? && t2.tcp[k].Reflected();
    InvSweep(t2, config, FakeIp.LEASE);
  }

  /** In the FakeIP mode the packets of that flow, the client's p and the listener's q, are
      forwarded before the lease ends, and rejected as stale from then on, although the flow
      is live and the table knows exactly where both go. */
  lemma ReplyLostAfterLease(p: IpPacket, q: IpPacket, now: int)
    requires p.protocol == ProtoTCP && p.source == CLIENT && p.destination == SERVER && !IsSyn(p)
    requires q.protocol == ProtoTCP && q.source == LISTENER && q.destination == AddrPort(SERVER.addr, CLIENT.port)
    ensures var config, settings, guards := Config(1000, 7000, 7000), Settings(true, false), Guards(false, false, false);
            var s := FakeIp.Run([FakeIp.Request("a.example", FakeIp.A, "", false, 0)]).s;
            var t1 := Outbound(EMPTY, config, Segment(CLIENT, SERVER, 2, 100), Route(Proxy), false, true, 1).0;
            var t := Sweep(Accept(t1, FlowKey(ProtoTCP, AddrPort(SERVER.addr, CLIENT.port), LISTENER), false).0, FakeIp.LEASE);
            && Return(t, q, now).1 == Some((SERVER, CLIENT))
            && Dispatch(q, s, settings, guards, config, now) == (if now < FakeIp.LEASE then ToReturn else StaleFakeIP)
            && Outbound(t, config, p, Passthrough, true, true, now).1 == Reinjected(AddrPort(SERVER.addr, CLIENT.port), LISTENER)
            && Dispatch(p, s, settings, guards, config, now) == (if now < FakeIp.LEASE then ToOutbound else StaleFakeIP)
  {
    FirstLease(now);
    FlowOutlivesLease();
    hide Outbound, Accept, Sweep, Inv, Return, FakeIp.Run, FakeIp.Lookup, FakeIp.IsFakeIP, FakeIp.WasIssued;
    var config, settings, guards := Config(1000, 7000, 7000), Settings(true, false), Guards(false, false, false);
    var s := FakeIp.Run([FakeIp.Request("a.example", FakeIp.A, "", false, 0)]).s;
    var t1 := Outbound(EMPTY, config, Segment(CLIENT, SERVER, 2, 100), Route(Proxy), false, true, 1).0;
    var t := Sweep(Accept(t1, FlowKey(ProtoTCP, AddrPort(SERVER.addr, CLIENT.port), LISTENER), false).0, FakeIp.LEASE);
    ReplyDispatched(t, config, FlowKey(ProtoTCP, CLIENT, SERVER), q, s, settings, guards, now);
    ClientDispatched(t, config, FlowKey(ProtoTCP, CLIENT, SERVER), p, s, settings, guards, now);
  }

  /** Addresses of parsed packets are never IPv4-mapped, so that the allocator's test
      of such addresses has no caller. */
  lemma ParsedNotMapped(d: seq<byte>)
    requires Parse(d).Ok?
    ensures !Parse(d).value.source.addr.Is4In6() && !Parse(d).value.destination.addr.Is4In6()
  {
    ParsedIsRepairable(d);
    hide OptionsError, Transport6;
  }
}
