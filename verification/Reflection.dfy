/** The TCP reflection table of the packet interceptor as a state machine: the
    two maps, port reuse, one-shot accept, the capacity bound and the sweeper.
    Interceptor.dfy refines it with the shared, mutable flow records. */
module Reflection {
  import opened Bytes
  import opened Addresses
  import opened Packet
  import opened Rewrite
  import opened Sets

  /** Two minutes, in nanoseconds. */
  const IDLE: int := 120_000_000_000

  datatype Action = Direct(handled: bool) | Proxy | Reject

  datatype Config = Config(maxFlows: nat, port4: uint16, port6: uint16)

  /** One tcpRedirect record; id tells records apart. */
  datatype Flow = Flow(
    id: nat, original: FlowKey, translated: Option<FlowKey>, action: Action, sequence: uint32,
    lastSeen: int, finished: Option<int>, accepted: bool, sentFIN: bool, receivedFIN: bool)
  {
    predicate Reflected() {
      action == Proxy || action == Direct(true)
    }

    /** The sweeper's condition, the same in both of its loops. */
    predicate Stale(now: int) {
      (finished.Some? && now - finished.value > IDLE) || (!accepted && now - lastSeen > IDLE)
    }

    predicate OpenDirect() {
      action == Direct(false) && finished.None?
    }

    predicate Expired(now: int) {
      !OpenDirect() && Stale(now)
    }

    function Touched(p: IpPacket, now: int): Flow {
      this.(lastSeen := now, finished := if Bit(p.tcpFlags, 4) then Some(now) else finished)
    }

    /** trackDirectTCP. */
    function Tracked(flags: byte, outbound: bool, now: int): Flow {
      var fin := Bit(flags, 1);
      var sent, received := sentFIN || (fin && outbound), receivedFIN || (fin && !outbound);
      this.(lastSeen := now, sentFIN := sent, receivedFIN := received,
            finished := if Bit(flags, 4) || (sent && received) then Some(now) else finished)
    }
  }

  type FlowMap = map<FlowKey, Flow>

  /** Both maps, and the number of records made so far. */
  datatype Table = Table(tcp: FlowMap, reverse: FlowMap, nextId: nat)

  datatype TableError = FlowCapacity | NoListener

  /** What the policy decided about a SYN that has no flow yet. */
  datatype Choice =
    | Bypass(remember: bool)  // loop guard; remembered for local resolver connections
    | ClassifyError
    | Passthrough             // DNS default-reject passthrough
    | Route(action: Action)

  datatype Verdict =
    | Passed | Dropped | Answered
    | Failed(error: TableError)     // answered with a reset
    | Abandoned(error: TableError)  // nothing is sent
    | Reinjected(source: AddrPort, destination: AddrPort)

  // ---- Steps ----

  function Key(p: IpPacket): FlowKey {
    FlowKey(ProtoTCP, p.source, p.destination)
  }

  predicate IsSyn(p: IpPacket) {
    Bit(p.tcpFlags, 2) && !Bit(p.tcpFlags, 16)
  }

  function ListenerPort(config: Config, a: Addr): uint16 {
    if a.V6? then config.port6 else config.port4
  }

  /** The reflected four-tuple: IP endpoints swapped, the client's port kept, the
      original destination port replaced by the listener's, and so lost. */
  function Translate(key: FlowKey, config: Config): FlowKey {
    FlowKey(ProtoTCP,
            AddrPort(key.destination.addr, key.source.port),
            AddrPort(key.source.addr, ListenerPort(config, key.source.addr)))
  }

  /** A changed record shows in every map that holds it. */
  function Replace(m: FlowMap, f: Flow): (r: FlowMap)
    ensures r.Keys == m.Keys
  {
    map k | k in m :: if m[k].id == f.id then f else m[k]
  }

  function Put(t: Table, f: Flow): Table {
    Table(Replace(t.tcp, f), Replace(t.reverse, f), t.nextId)
  }

  /** Removal of a flow whose client port is being reused. */
  function Drop(t: Table, key: FlowKey): Table
    requires key in t.tcp
  {
    var f := t.tcp[key];
    Table(t.tcp - {key}, if f.translated.Some? then t.reverse - {f.translated.value} else t.reverse, t.nextId)
  }

  /** registerTCP. */
  function Register(t: Table, config: Config, key: FlowKey, action: Action, sequence: uint32, now: int)
    : (Table, Option<TableError>)
  {
    var made := Flow(t.nextId, key, None, action, sequence, now, None, false, false, false);
    if |t.tcp| + |t.reverse| >= 4 * config.maxFlows then (t, Some(FlowCapacity))
    else if !made.Reflected() then (Table(t.tcp[key := made], t.reverse, t.nextId + 1), None)
    else
      var translated := Translate(key, config);
      var f := made.(translated := Some(translated));
      if ListenerPort(config, key.source.addr) == 0 then (t, Some(NoListener))
      else if translated in t.reverse then (t, Some(FlowCapacity))
      else (Table(t.tcp[key := f], t.reverse[translated := f], t.nextId + 1), None)
  }

  /** What one locked section does to a record it has a pointer to. */
  datatype Change = Touch(packet: IpPacket) | Track(flags: byte, outbound: bool) | End

  function Changed(f: Flow, c: Change, now: int): Flow {
    match c
    case Touch(p) => f.Touched(p, now)
    case Track(flags, outbound) => f.Tracked(flags, outbound, now)
    case End => f.(finished := Some(now))
  }

  function ChangeMap(m: FlowMap, id: nat, c: Change, now: int): (r: FlowMap)
    ensures r.Keys == m.Keys
  {
    map k | k in m :: if m[k].id == id then Changed(m[k], c, now) else m[k]
  }

  /** A change of record `id` shows in every map that holds it; the record may have
      left the maps meanwhile. */
  function Apply(t: Table, id: nat, c: Change, now: int): Table {
    Table(ChangeMap(t.tcp, id, c, now), ChangeMap(t.reverse, id, c, now), t.nextId)
  }

  /** What outboundTCP does with the packet of a flow. */
  function VerdictOf(f: Flow): Verdict {
    if f.Reflected() then
      if f.translated.Some? then Reinjected(f.translated.value.source, f.translated.value.destination) else Dropped
    else if f.action == Reject then Answered
    else Passed
  }

  /** outboundTCP after a flow was found or registered, undisturbed. */
  function Forward(t: Table, f: Flow, p: IpPacket, sent: bool, now: int): (Table, Verdict) {
    var t' := Apply(t, f.id, Touch(p), now);
    (if f.action == Direct(false) && sent then Apply(t', f.id, Track(p.tcpFlags, true), now) else t', VerdictOf(f))
  }

  /** outboundTCP without other threads in between: `dropPlain` is the DNS guard for
      flows older than the table, `sent` whether the device took the packet. */
  function Outbound(t: Table, config: Config, p: IpPacket, choice: Choice, dropPlain: bool, sent: bool, now: int)
    : (Table, Verdict)
  {
    var key := Key(p);
    var t1 := if key in t.tcp && IsSyn(p) && t.tcp[key].sequence != p.tcpSequence then Drop(t, key) else t;
    if key in t1.tcp then Forward(t1, t1.tcp[key], p, sent, now)
    else if !IsSyn(p) then (t1, if dropPlain then Dropped else Passed)
    else match choice
      case Bypass(remember) =>
        if !remember then (t1, Passed) else
        var (t2, error) := Register(t1, config, key, Direct(false), p.tcpSequence, now);
        (t2, if error.Some? then Abandoned(error.value) else Passed)
      case ClassifyError => (t1, Answered)
      case Passthrough => (t1, Passed)
      case Route(action) =>
        var (t2, error) := Register(t1, config, key, action, p.tcpSequence, now);
        if error.Some? then (t2, Failed(error.value))
        else if key in t2.tcp then Forward(t2, t2.tcp[key], p, sent, now)
        else (t2, Dropped)
  }

  /** returnTCP: the endpoints a packet of the listener is rewritten to. */
  function Return(t: Table, p: IpPacket, now: int): (Table, Option<(AddrPort, AddrPort)>) {
    var key := FlowKey(ProtoTCP, p.destination, p.source);
    if key !in t.reverse then (t, None) else
    var f := t.reverse[key];
    (Put(t, f.(lastSeen := now)), Some((f.original.destination, f.original.source)))
  }

  /** acceptTCP for a connection whose addresses give `key`: the flow it is bound to. */
  function Accept(t: Table, key: FlowKey, stopped: bool): (Table, Option<nat>) {
    if stopped || key !in t.reverse || t.reverse[key].accepted || t.reverse[key].finished.Some? then (t, None)
    else (Put(t, t.reverse[key].(accepted := true)), Some(t.reverse[key].id))
  }

  /** The end of the forwarding of record `id`. */
  function Finish(t: Table, id: nat, now: int): Table {
    Apply(t, id, End, now)
  }

  /** trackDirectTCP for an inbound packet of an untouched direct flow. */
  function Inbound(t: Table, p: IpPacket, now: int): Table {
    var key := FlowKey(ProtoTCP, p.destination, p.source);
    if key in t.tcp && t.tcp[key].action == Direct(false) then Apply(t, t.tcp[key].id, Track(p.tcpFlags, false), now) else t
  }

  /** sweepTCP, both loops. */
  function Sweep(t: Table, now: int): Table {
    Table(map k | k in t.tcp && !t.tcp[k].Expired(now) :: t.tcp[k],
          map k | k in t.reverse && !t.reverse[k].Stale(now) :: t.reverse[k],
          t.nextId)
  }

  /** sweepDirectTCP's removal of one candidate, rechecked under the lock. */
  function SweepDirect(t: Table, key: FlowKey, id: nat, seen: int): Table {
    if key in t.tcp && t.tcp[key].id == id && t.tcp[key].lastSeen == seen && t.tcp[key].action == Direct(false)
    then t.(tcp := t.tcp - {key}) else t
  }

  // ---- The invariant ----

  /** Addresses as the parser delivers them: one family, no zone, not mapped. */
  predicate WireKey(k: FlowKey) {
    k.protocol == ProtoTCP && Plain(k.source.addr) && Plain(k.destination.addr)
    && k.source.addr.V4? == k.destination.addr.V4?
  }

  predicate WellMade(f: Flow, config: Config) {
    && WireKey(f.original)
    && (f.Reflected() ==> ListenerPort(config, f.original.source.addr) != 0)
    && f.translated == (if f.Reflected() then Some(Translate(f.original, config)) else None)
  }

  predicate TcpEntry(t: Table, config: Config, k: FlowKey)
    requires k in t.tcp
  {
    var f := t.tcp[k];
    && f.original == k && f.id < t.nextId && WellMade(f, config)
    && (f.Reflected() ==> f.translated.value in t.reverse && t.reverse[f.translated.value] == f)
  }

  predicate ReverseEntry(t: Table, r: FlowKey)
    requires r in t.reverse
  {
    var f := t.reverse[r];
    f.Reflected() && f.translated == Some(r) && f.original in t.tcp && t.tcp[f.original] == f
  }

  ghost predicate UniqueIds(t: Table) {
    forall j, k :: j in t.tcp && k in t.tcp && t.tcp[j].id == t.tcp[k].id ==> j == k
  }

  /** The map `translated` to flow over the reflected flows of tcp. */
  ghost predicate Exact(t: Table) {
    && (forall k :: k in t.tcp && t.tcp[k].Reflected() ==>
          && t.tcp[k].translated.Some? && t.tcp[k].translated.value in t.reverse
          && t.reverse[t.tcp[k].translated.value] == t.tcp[k])
    && (forall r :: r in t.reverse ==>
          && t.reverse[r].Reflected() && t.reverse[r].translated == Some(r)
          && t.reverse[r].original in t.tcp && t.tcp[t.reverse[r].original] == t.reverse[r])
  }

  ghost predicate Inv(t: Table, config: Config) {
    && (forall k :: k in t.tcp ==> TcpEntry(t, config, k))
    && (forall r :: r in t.reverse ==> ReverseEntry(t, r))
    && UniqueIds(t)
    && |t.tcp| + |t.reverse| <= 4 * config.maxFlows + 1
  }

  /** reverse is exactly the map from `translated` to flow over the reflected
      flows of tcp: nothing overwritten, nothing dangling. */
  lemma InvIsExact(t: Table, config: Config)
    requires Inv(t, config)
    ensures Exact(t) && |t.tcp| + |t.reverse| <= 4 * config.maxFlows + 1
  {
  }

  /** The record of key k and, through it, what its reverse entry must be. */
  lemma InvParts(t: Table, config: Config, k: FlowKey)
    requires Inv(t, config) && k in t.tcp
    ensures TcpEntry(t, config, k)
  {
  }

  /** The record behind a reverse entry, found through tcp. */
  lemma InvReverse(t: Table, config: Config, r: FlowKey)
    requires Inv(t, config) && r in t.reverse
    ensures ReverseEntry(t, r) && TcpEntry(t, config, t.reverse[r].original)
    ensures Translate(t.reverse[r].original, config) == r
  {
    assert ReverseEntry(t, r);
    assert TcpEntry(t, config, t.reverse[r].original);
  }

  /** f is a new state of the record that is stored under its key. */
  predicate Successor(t: Table, f: Flow) {
    f.original in t.tcp
    && var g := t.tcp[f.original];
    f.id == g.id && f.action == g.action && f.translated == g.translated
  }

  lemma PutIsUpdate(t: Table, config: Config, f: Flow)
    requires Inv(t, config) && Successor(t, f)
    ensures Put(t, f).tcp == t.tcp[f.original := f]
    ensures Put(t, f).reverse == if f.Reflected() then t.reverse[f.translated.value := f] else t.reverse
    ensures f.Reflected() ==> f.translated.Some? && f.translated.value in t.reverse
    ensures Successor(Put(t, f), f) && Put(t, f).nextId == t.nextId
  {
    hide WellMade, Replace;
    InvParts(t, config, f.original);
    forall k | k in t.tcp ensures t.tcp[k].id == f.id <==> k == f.original { }
    forall r | r in t.reverse ensures t.reverse[r].id == f.id <==> f.Reflected() && Some(r) == f.translated {
      InvReverse(t, config, r);
    }
    PutByCases(t, f);
  }

  lemma PutByCases(t: Table, f: Flow)
    requires f.original in t.tcp && (f.Reflected() ==> f.translated.Some? && f.translated.value in t.reverse)
    requires forall k :: k in t.tcp ==> (t.tcp[k].id == f.id <==> k == f.original)
    requires forall r :: r in t.reverse ==> (t.reverse[r].id == f.id <==> f.Reflected() && Some(r) == f.translated)
    ensures Put(t, f).tcp == t.tcp[f.original := f]
    ensures Put(t, f).reverse == if f.Reflected() then t.reverse[f.translated.value := f] else t.reverse
  {
  }

  lemma ReplacedTcpEntry(t: Table, config: Config, f: Flow, k: FlowKey)
    requires Inv(t, config) && Successor(t, f) && k in t.tcp && k in Put(t, f).tcp
    ensures TcpEntry(Put(t, f), config, k)
  {
    hide Inv, Put, WireKey, Translate;
    PutIsUpdate(t, config, f);
    InvParts(t, config, f.original);
    InvParts(t, config, k);
  }

  lemma ReplacedReverseEntry(t: Table, config: Config, f: Flow, r: FlowKey)
    requires Inv(t, config) && Successor(t, f) && r in t.reverse && r in Put(t, f).reverse
    ensures ReverseEntry(Put(t, f), r)
  {
    hide Inv, Put, WellMade;
    PutIsUpdate(t, config, f);
    InvParts(t, config, f.original);
    InvReverse(t, config, r);
  }

  lemma InvReplace(t: Table, config: Config, f: Flow)
    requires Inv(t, config) && Successor(t, f)
    ensures Inv(Put(t, f), config) && Successor(Put(t, f), f)
    ensures Put(t, f).tcp == t.tcp[f.original := f] && Put(t, f).tcp.Keys == t.tcp.Keys
  {
    hide WellMade, TcpEntry, ReverseEntry, Replace;
    PutIsUpdate(t, config, f);
    var t' := Put(t, f);
    assert t'.tcp.Keys == t.tcp.Keys && t'.reverse.Keys == t.reverse.Keys;
    assert |t'.tcp| == |t'.tcp.Keys| && |t'.reverse| == |t'.reverse.Keys|;
    forall k | k in t'.tcp ensures TcpEntry(t', config, k) {
      ReplacedTcpEntry(t, config, f, k);
    }
    forall r | r in t'.reverse ensures ReverseEntry(t', r) {
      ReplacedReverseEntry(t, config, f, r);
    }
  }

  lemma DroppedEntries(t: Table, config: Config, key: FlowKey)
    requires Inv(t, config) && key in t.tcp
    ensures forall k :: k in Drop(t, key).tcp ==> TcpEntry(Drop(t, key), config, k)
    ensures forall r :: r in Drop(t, key).reverse ==> ReverseEntry(Drop(t, key), r)
  {
    hide Inv, WellMade;
    var t' := Drop(t, key);
    InvParts(t, config, key);
    MadeTranslation(t.tcp[key], config);
    forall k | k in t'.tcp ensures TcpEntry(t', config, k) {
      InvParts(t, config, k);
    }
    forall r | r in t'.reverse ensures ReverseEntry(t', r) {
      InvReverse(t, config, r);
    }
  }

  lemma InvDrop(t: Table, config: Config, key: FlowKey)
    requires Inv(t, config) && key in t.tcp
    ensures Inv(Drop(t, key), config)
    ensures Drop(t, key).tcp == t.tcp - {key} && Drop(t, key).nextId == t.nextId
  {
    hide TcpEntry, ReverseEntry;
    var t' := Drop(t, key);
    DroppedEntries(t, config, key);
    assert t'.tcp.Keys == t.tcp.Keys - {key} && t'.reverse.Keys <= t.reverse.Keys;
    SubsetSize(t'.reverse.Keys, t.reverse.Keys);
  }

  /** t with the new record f in both maps. */
  function Added(t: Table, f: Flow): Table {
    Table(t.tcp[f.original := f], if f.translated.Some? then t.reverse[f.translated.value := f] else t.reverse, t.nextId + 1)
  }

  lemma InvAdded(t: Table, config: Config, f: Flow)
    requires Inv(t, config) && WellMade(f, config) && f.id == t.nextId
    requires f.original !in t.tcp && (f.translated.Some? ==> f.translated.value !in t.reverse)
    requires |t.tcp| + |t.reverse| < 4 * config.maxFlows
    ensures Inv(Added(t, f), config)
  {
    hide WellMade, UniqueIds, Translate;
    var t' := Added(t, f);
    MapUpdateSize(t.tcp, f.original, f);
    if f.translated.Some? {
      MapUpdateSize(t.reverse, f.translated.value, f);
    }
    AddedEntries(t, config, f);
    AddedUnique(t, config, f);
    hide TcpEntry, ReverseEntry;
  }

  lemma AddedEntries(t: Table, config: Config, f: Flow)
    requires Inv(t, config) && WellMade(f, config) && f.id == t.nextId
    requires f.original !in t.tcp && (f.translated.Some? ==> f.translated.value !in t.reverse)
    ensures forall k :: k in Added(t, f).tcp ==> TcpEntry(Added(t, f), config, k)
    ensures forall r :: r in Added(t, f).reverse ==> ReverseEntry(Added(t, f), r)
  {
    hide WellMade, UniqueIds, Translate;
    var t' := Added(t, f);
    MadeTranslation(f, config);
    forall k | k in t'.tcp ensures TcpEntry(t', config, k) {
      if k != f.original {
        InvParts(t, config, k);
      }
    }
    forall r | r in t'.reverse ensures ReverseEntry(t', r) {
      if r in t.reverse {
        InvReverse(t, config, r);
      }
    }
  }

  lemma MadeTranslation(f: Flow, config: Config)
    requires WellMade(f, config)
    ensures f.Reflected() <==> f.translated.Some?
  {
  }

  lemma AddedUnique(t: Table, config: Config, f: Flow)
    requires Inv(t, config) && f.id == t.nextId && f.original !in t.tcp
    ensures UniqueIds(Added(t, f))
  {
    hide WellMade;
    var t' := Added(t, f);
    forall k | k in t.tcp ensures t.tcp[k].id < f.id {
      InvParts(t, config, k);
    }
  }

  lemma InvRegister(t: Table, config: Config, key: FlowKey, action: Action, sequence: uint32, now: int)
    requires Inv(t, config) && WireKey(key) && key !in t.tcp
    ensures var (t', error) := Register(t, config, key, action, sequence, now);
            && Inv(t', config) && (error.Some? ==> t' == t)
            && (error.None? ==> key in t'.tcp && t'.tcp[key].id == t.nextId && t'.nextId == t.nextId + 1
                                && t'.tcp == t.tcp[key := t'.tcp[key]])
  {
    hide Inv, WireKey, Translate;
    var (t', error) := Register(t, config, key, action, sequence, now);
    if error.None? {
      InvAdded(t, config, t'.tcp[key]);
    }
  }

  lemma AppliedEntries(t: Table, config: Config, id: nat, c: Change, now: int)
    requires Inv(t, config)
    ensures forall k :: k in Apply(t, id, c, now).tcp ==> TcpEntry(Apply(t, id, c, now), config, k)
    ensures forall r :: r in Apply(t, id, c, now).reverse ==> ReverseEntry(Apply(t, id, c, now), r)
  {
    hide Inv, Translate, WireKey, Bit;
    var t' := Apply(t, id, c, now);
    forall k | k in t'.tcp ensures TcpEntry(t', config, k) {
      InvParts(t, config, k);
    }
    forall r | r in t'.reverse ensures ReverseEntry(t', r) {
      InvReverse(t, config, r);
    }
  }

  /** Whatever is done to a record, stored or not, the table stays exact. */
  lemma InvApply(t: Table, config: Config, id: nat, c: Change, now: int)
    requires Inv(t, config)
    ensures Inv(Apply(t, id, c, now), config)
    ensures Apply(t, id, c, now).tcp.Keys == t.tcp.Keys && Apply(t, id, c, now).nextId == t.nextId
  {
    hide WellMade, TcpEntry, ReverseEntry, Bit;
    AppliedEntries(t, config, id, c, now);
    var t' := Apply(t, id, c, now);
    assert t'.tcp.Keys == t.tcp.Keys && t'.reverse.Keys == t.reverse.Keys;
    assert |t'.tcp| == |t'.tcp.Keys| && |t'.reverse| == |t'.reverse.Keys|;
  }

  lemma InvForward(t: Table, config: Config, f: Flow, p: IpPacket, sent: bool, now: int)
    requires Inv(t, config)
    ensures Inv(Forward(t, f, p, sent, now).0, config)
  {
    hide Inv, Apply;
    InvApply(t, config, f.id, Touch(p), now);
    InvApply(Apply(t, f.id, Touch(p), now), config, f.id, Track(p.tcpFlags, true), now);
  }

  lemma InvOutbound(t: Table, config: Config, p: IpPacket, choice: Choice, dropPlain: bool, sent: bool, now: int)
    requires Inv(t, config) && WireKey(Key(p))
    ensures Inv(Outbound(t, config, p, choice, dropPlain, sent, now).0, config)
  {
    hide Inv, Translate, WireKey, Forward, Register;
    var key := Key(p);
    var t1 := t;
    if key in t.tcp && IsSyn(p) && t.tcp[key].sequence != p.tcpSequence {
      InvDrop(t, config, key);
      t1 := Drop(t, key);
    }
    if key in t1.tcp {
      InvForward(t1, config, t1.tcp[key], p, sent, now);
    } else if IsSyn(p) {
      var action := if choice.Route? then choice.action else Direct(false);
      InvRegister(t1, config, key, action, p.tcpSequence, now);
      var (t2, error) := Register(t1, config, key, action, p.tcpSequence, now);
      if error.None? {
        InvForward(t2, config, t2.tcp[key], p, sent, now);
      }
    }
  }

  lemma InvReturn(t: Table, config: Config, p: IpPacket, now: int)
    requires Inv(t, config)
    ensures Inv(Return(t, p, now).0, config)
  {
    hide Inv, Translate, WireKey;
    var key := FlowKey(ProtoTCP, p.destination, p.source);
    if key in t.reverse {
      InvReverse(t, config, key);
      InvReplace(t, config, t.reverse[key].(lastSeen := now));
    }
  }

  lemma InvAccept(t: Table, config: Config, key: FlowKey, stopped: bool)
    requires Inv(t, config)
    ensures Inv(Accept(t, key, stopped).0, config)
    ensures Accept(t, key, stopped).0.tcp.Keys == t.tcp.Keys && Accept(t, key, stopped).0.nextId == t.nextId
  {
    hide Inv, Translate, WireKey;
    if key in t.reverse {
      InvReverse(t, config, key);
      InvReplace(t, config, t.reverse[key].(accepted := true));
    }
  }

  lemma InvSweep(t: Table, config: Config, now: int)
    requires Inv(t, config)
    ensures Inv(Sweep(t, now), config) && Sweep(t, now).tcp.Keys <= t.tcp.Keys && Sweep(t, now).nextId == t.nextId
  {
    hide WellMade, TcpEntry, ReverseEntry, UniqueIds;
    var t' := Sweep(t, now);
    SubsetSize(t'.tcp.Keys, t.tcp.Keys);
    SubsetSize(t'.reverse.Keys, t.reverse.Keys);
    forall k | k in t'.tcp ensures TcpEntry(t', config, k) {
      InvParts(t, config, k);
      SweptTcpEntry(t, config, now, k);
    }
    forall r | r in t'.reverse ensures ReverseEntry(t', r) {
      InvReverse(t, config, r);
      SweptReverseEntry(t, now, r);
    }
    FewerIds(t, t');
  }

  lemma SweptTcpEntry(t: Table, config: Config, now: int, k: FlowKey)
    requires k in t.tcp && k in Sweep(t, now).tcp && TcpEntry(t, config, k)
    ensures TcpEntry(Sweep(t, now), config, k)
  {
    hide WireKey, Translate;
  }

  lemma SweptReverseEntry(t: Table, now: int, r: FlowKey)
    requires r in t.reverse && r in Sweep(t, now).reverse && ReverseEntry(t, r)
    ensures ReverseEntry(Sweep(t, now), r)
  {
  }

  lemma InvSweepDirect(t: Table, config: Config, key: FlowKey, id: nat, seen: int)
    requires Inv(t, config)
    ensures Inv(SweepDirect(t, key, id, seen), config)
    ensures SweepDirect(t, key, id, seen).tcp.Keys <= t.tcp.Keys && SweepDirect(t, key, id, seen).nextId == t.nextId
  {
    hide WellMade, TcpEntry, ReverseEntry, UniqueIds;
    var t' := SweepDirect(t, key, id, seen);
    SubsetSize(t'.tcp.Keys, t.tcp.Keys);
    forall k | k in t'.tcp ensures TcpEntry(t', config, k) {
      InvParts(t, config, k);
      LostDirect(t, t', config, k);
    }
    forall r | r in t'.reverse ensures ReverseEntry(t', r) {
      InvReverse(t, config, r);
      KeptReverse(t, t', key, r);
    }
    FewerIds(t, t');
  }

  lemma LostDirect(t: Table, t': Table, config: Config, k: FlowKey)
    requires k in t.tcp && k in t'.tcp && t'.tcp[k] == t.tcp[k] && t'.reverse == t.reverse && t'.nextId == t.nextId
    requires TcpEntry(t, config, k)
    ensures TcpEntry(t', config, k)
  {
    hide WellMade;
  }

  lemma KeptReverse(t: Table, t': Table, key: FlowKey, r: FlowKey)
    requires r in t.reverse && ReverseEntry(t, r) && t'.reverse == t.reverse
    requires t'.tcp == t.tcp || (key in t.tcp && t.tcp[key].action == Direct(false) && t'.tcp == t.tcp - {key})
    ensures ReverseEntry(t', r)
  {
  }

  lemma FewerIds(t: Table, t': Table)
    requires UniqueIds(t) && forall k :: k in t'.tcp ==> k in t.tcp && t'.tcp[k] == t.tcp[k]
    ensures UniqueIds(t')
  {
  }

  // ---- Whole runs ----

  /** Where the packet thread is between two of its locked sections: it has no flow
      for the packet, or a pointer to a record whose map entries may go meanwhile. */
  datatype Stage =
    | Idle
    | Unknown(packet: IpPacket)
    | Holding(packet: IpPacket, flow: Flow)
    | Tracking(packet: IpPacket, flow: Flow, outbound: bool)

  datatype Machine = Machine(t: Table, stage: Stage)

  /** One event for each locked section. The first six are the packet thread's, of
      which the first three begin a packet; the others are concurrent. */
  datatype Event =
    | Arrives(packet: IpPacket)                                // outboundTCP, first section
    | ListenerPacket(packet: IpPacket, now: int)               // returnTCP
    | Incoming(packet: IpPacket)                               // inboundPacket, first section
    | Decides(choice: Choice, now: int)                        // registerTCP
    | Touches(now: int)                                        // outboundTCP, lastSeen and RST
    | Tracks(sent: bool, now: int)                             // trackDirectTCP
    | Accepted(key: FlowKey, stopped: bool)
    | Finished(id: nat, now: int)
    | Swept(now: int)
    | SweptDirect(key: FlowKey, id: nat, seen: int)

  /** The port is reused: another SYN for a key that has a flow. */
  predicate Reuses(t: Table, p: IpPacket) {
    Key(p) in t.tcp && IsSyn(p) && t.tcp[Key(p)].sequence != p.tcpSequence
  }

  function Arrive(t: Table, p: IpPacket): Machine {
    var t1 := if Reuses(t, p) then Drop(t, Key(p)) else t;
    Machine(t1, if Key(p) in t1.tcp then Holding(p, t1.tcp[Key(p)]) else Unknown(p))
  }

  function Decide(t: Table, config: Config, p: IpPacket, choice: Choice, now: int): Machine {
    if !IsSyn(p) then Machine(t, Idle)
    else match choice
      case Bypass(remember) =>
        Machine(if remember then Register(t, config, Key(p), Direct(false), p.tcpSequence, now).0 else t, Idle)
      case ClassifyError => Machine(t, Idle)
      case Passthrough => Machine(t, Idle)
      case Route(action) =>
        var (t', error) := Register(t, config, Key(p), action, p.tcpSequence, now);
        Machine(t', if error.None? && Key(p) in t'.tcp then Holding(p, t'.tcp[Key(p)]) else Idle)
  }

  function Step(m: Machine, config: Config, e: Event): Machine {
    match e
    case Arrives(p) => if m.stage.Idle? then Arrive(m.t, p) else m
    case ListenerPacket(p, now) => if m.stage.Idle? then m.(t := Return(m.t, p, now).0) else m
    case Incoming(p) =>
      var key := FlowKey(ProtoTCP, p.destination, p.source);
      if m.stage.Idle? && key in m.t.tcp && m.t.tcp[key].action == Direct(false)
      then m.(stage := Tracking(p, m.t.tcp[key], false)) else m
    case Decides(choice, now) =>
      if m.stage.Unknown? then Decide(m.t, config, m.stage.packet, choice, now) else m
    case Touches(now) =>
      if !m.stage.Holding? then m else
      var p, f := m.stage.packet, m.stage.flow;
      Machine(Apply(m.t, f.id, Touch(p), now), if f.action == Direct(false) then Tracking(p, f, true) else Idle)
    case Tracks(sent, now) =>
      if !m.stage.Tracking? then m else
      var p, f := m.stage.packet, m.stage.flow;
      Machine(if sent then Apply(m.t, f.id, Track(p.tcpFlags, m.stage.outbound), now) else m.t, Idle)
    case Accepted(key, stopped) => m.(t := Accept(m.t, key, stopped).0)
    case Finished(id, now) => m.(t := Finish(m.t, id, now))
    case Swept(now) => m.(t := Sweep(m.t, now))
    case SweptDirect(key, id, seen) => m.(t := SweepDirect(m.t, key, id, seen))
  }

  /** Outgoing packets come from the parser; nothing else is asked of a run. */
  predicate FromWire(e: Event) {
    e.Arrives? ==> WireKey(Key(e.packet))
  }

  const EMPTY := Table(map[], map[], 0)

  function RunFrom(m: Machine, config: Config, es: seq<Event>): Machine {
    if es == [] then m else Step(RunFrom(m, config, es[..|es| - 1]), config, es[|es| - 1])
  }

  function Run(config: Config, es: seq<Event>): Machine {
    RunFrom(Machine(EMPTY, Idle), config, es)
  }

  /** The table is exact, and a packet without a flow is still without one when its
      flow is registered: only the packet thread adds flows. */
  ghost predicate MachineInv(m: Machine, config: Config) {
    && Inv(m.t, config)
    && (m.stage.Unknown? ==> WireKey(Key(m.stage.packet)) && Key(m.stage.packet) !in m.t.tcp)
    && (m.stage.Holding? || m.stage.Tracking? ==> m.stage.flow.id < m.t.nextId)
    && (m.stage.Holding? ==> m.stage.flow.original == Key(m.stage.packet) && WellMade(m.stage.flow, config))
  }

  lemma InvArrive(t: Table, config: Config, p: IpPacket)
    requires Inv(t, config) && WireKey(Key(p))
    ensures MachineInv(Arrive(t, p), config)
  {
    hide Inv, WellMade, WireKey;
    var t1 := Arrive(t, p).t;
    if Reuses(t, p) {
      InvDrop(t, config, Key(p));
    }
    if Key(p) in t1.tcp {
      InvParts(t1, config, Key(p));
    }
  }

  lemma InvDecide(t: Table, config: Config, p: IpPacket, choice: Choice, now: int)
    requires Inv(t, config) && WireKey(Key(p)) && Key(p) !in t.tcp
    ensures MachineInv(Decide(t, config, p, choice, now), config)
  {
    hide Inv, WellMade, WireKey, Register;
    var action := if choice.Route? then choice.action else Direct(false);
    InvRegister(t, config, Key(p), action, p.tcpSequence, now);
    var t' := Register(t, config, Key(p), action, p.tcpSequence, now).0;
    if Key(p) in t'.tcp {
      InvParts(t', config, Key(p));
    }
  }

  lemma InvStep(m: Machine, config: Config, e: Event)
    requires MachineInv(m, config) && FromWire(e)
    ensures MachineInv(Step(m, config, e), config)
  {
    hide Inv, Arrive, Decide, Return, Accept, Finish, Sweep, SweepDirect, Apply, WellMade, WireKey;
    match e
    case Arrives(p) => InvArrive(m.t, config, p);
    case ListenerPacket(p, now) => InvReturn(m.t, config, p, now);
    case Incoming(p) =>
      var key := FlowKey(ProtoTCP, p.destination, p.source);
      if key in m.t.tcp {
        InvParts(m.t, config, key);
      }
    case Decides(choice, now) => if m.stage.Unknown? { InvDecide(m.t, config, m.stage.packet, choice, now); }
    case Touches(now) => if m.stage.Holding? { InvApply(m.t, config, m.stage.flow.id, Touch(m.stage.packet), now); }
    case Tracks(sent, now) =>
      if m.stage.Tracking? {
        InvApply(m.t, config, m.stage.flow.id, Track(m.stage.packet.tcpFlags, m.stage.outbound), now);
      }
    case Accepted(key, stopped) => InvAccept(m.t, config, key, stopped);
    case Finished(id, now) => InvFinish(m.t, config, id, now);
    case Swept(now) => InvSweep(m.t, config, now);
    case SweptDirect(key, id, seen) => InvSweepDirect(m.t, config, key, id, seen);
  }

  lemma InvFinish(t: Table, config: Config, id: nat, now: int)
    requires Inv(t, config)
    ensures Inv(Finish(t, id, now), config) && Finish(t, id, now).tcp.Keys == t.tcp.Keys && Finish(t, id, now).nextId == t.nextId
  {
    hide Inv, Apply;
    InvApply(t, config, id, End, now);
  }

  /** Every reachable table is exact and within its bound, at every moment between two
      locked sections of whatever threads. */
  lemma {:induction false} InvRun(config: Config, es: seq<Event>)
    requires forall i :: 0 <= i < |es| ==> FromWire(es[i])
    ensures MachineInv(Run(config, es), config)
    ensures Exact(Run(config, es).t)
    ensures |Run(config, es).t.tcp| + |Run(config, es).t.reverse| <= 4 * config.maxFlows + 1
  {
    hide Step, Inv, Exact;
    if es == [] {
      NothingStored(config);
    } else {
      InvRun(config, es[..|es| - 1]);
      InvStep(Run(config, es[..|es| - 1]), config, es[|es| - 1]);
    }
    InvIsExact(Run(config, es).t, config);
  }

  lemma NothingStored(config: Config)
    ensures Inv(EMPTY, config)
  {
  }

  /** What the packet thread does for one outgoing packet. */
  function Sections(p: IpPacket, choice: Choice, sent: bool, now: int): seq<Event> {
    [Arrives(p), Decides(choice, now), Touches(now), Tracks(sent, now)]
  }

  lemma RunFour(m: Machine, config: Config, a: Event, b: Event, c: Event, d: Event)
    ensures RunFrom(m, config, [a, b, c, d]) == Step(Step(Step(Step(m, config, a), config, b), config, c), config, d)
  {
    hide Step;
    assert [a, b, c, d][..3] == [a, b, c] && [a, b, c][..2] == [a, b] && [a, b][..1] == [a] && [a][..0] == [];
    assert RunFrom(m, config, []) == m;
    assert RunFrom(m, config, [a]) == Step(m, config, a);
    assert RunFrom(m, config, [a, b]) == Step(RunFrom(m, config, [a]), config, b);
    assert RunFrom(m, config, [a, b, c]) == Step(RunFrom(m, config, [a, b]), config, c);
  }

  /** The last two sections, undisturbed. */
  lemma HeldIsForwarded(t: Table, config: Config, p: IpPacket, f: Flow, sent: bool, now: int)
    ensures Step(Step(Machine(t, Holding(p, f)), config, Touches(now)), config, Tracks(sent, now)) ==
            Machine(Forward(t, f, p, sent, now).0, Idle)
  {
    hide Apply;
  }

  lemma IdleStays(t: Table, config: Config, choice: Choice, sent: bool, now: int)
    ensures Step(Step(Machine(t, Idle), config, Touches(now)), config, Tracks(sent, now)) == Machine(t, Idle)
  {
  }

  lemma FirstSections(t: Table, config: Config, p: IpPacket, choice: Choice, dropPlain: bool, sent: bool, now: int)
    ensures var m := Step(Arrive(t, p), config, Decides(choice, now));
            && (m.stage == Idle || (m.stage.Holding? && m.stage.packet == p))
            && Outbound(t, config, p, choice, dropPlain, sent, now).0 ==
               if m.stage.Holding? then Forward(m.t, m.stage.flow, p, sent, now).0 else m.t
  {
    hide Forward, Register, Drop, IsSyn;
    var t1 := Arrive(t, p).t;
    if Key(p) in t1.tcp {
      assert Outbound(t, config, p, choice, dropPlain, sent, now) == Forward(t1, t1.tcp[Key(p)], p, sent, now);
    } else if !IsSyn(p) {
      assert Outbound(t, config, p, choice, dropPlain, sent, now).0 == t1;
    } else {
      match choice
      case Bypass(remember) =>
      case ClassifyError =>
      case Passthrough =>
      case Route(action) =>
        var (t2, error) := Register(t1, config, Key(p), action, p.tcpSequence, now);
        var m := Step(Arrive(t, p), config, Decides(choice, now));
        assert m == Decide(t1, config, p, choice, now);
        if error.None? && Key(p) in t2.tcp {
          assert Outbound(t, config, p, choice, dropPlain, sent, now) == Forward(t2, t2.tcp[Key(p)], p, sent, now);
        } else {
          assert m == Machine(t2, Idle);
          assert error.Some? ==> Outbound(t, config, p, choice, dropPlain, sent, now) == (t2, Failed(error.value));
        }
    }
  }

  /** Undisturbed, the sections are outboundTCP as a whole. */
  lemma SectionsAreOutbound(t: Table, config: Config, p: IpPacket, choice: Choice, dropPlain: bool, sent: bool, now: int)
    ensures RunFrom(Machine(t, Idle), config, Sections(p, choice, sent, now)) ==
            Machine(Outbound(t, config, p, choice, dropPlain, sent, now).0, Idle)
  {
    hide Forward, Register, Drop, IsSyn, RunFrom, Outbound, Arrive;
    RunFour(Machine(t, Idle), config, Arrives(p), Decides(choice, now), Touches(now), Tracks(sent, now));
    assert Step(Machine(t, Idle), config, Arrives(p)) == Arrive(t, p);
    hide Step;
    FirstSections(t, config, p, choice, dropPlain, sent, now);
    var m := Step(Arrive(t, p), config, Decides(choice, now));
    assert m == Machine(m.t, m.stage);
    if m.stage.Holding? {
      assert m.stage == Holding(p, m.stage.flow);
      HeldIsForwarded(m.t, config, p, m.stage.flow, sent, now);
    } else {
      IdleStays(m.t, config, choice, sent, now);
    }
  }

  // ---- One accept per flow ----

  /** What one step may do to the records: new ones get new numbers, old ones
      keep their number and stay accepted. */
  ghost predicate Evolves(t: Table, t': Table) {
    && t.nextId <= t'.nextId
    && forall k :: k in t'.tcp && t'.tcp[k].id < t.nextId ==>
         k in t.tcp && t.tcp[k].id == t'.tcp[k].id && (t.tcp[k].accepted ==> t'.tcp[k].accepted)
  }

  lemma EvolvesPut(t: Table, config: Config, f: Flow)
    requires Inv(t, config) && Successor(t, f) && (t.tcp[f.original].accepted ==> f.accepted)
    ensures Evolves(t, Put(t, f))
  {
    hide Inv, Put;
    PutIsUpdate(t, config, f);
  }

  lemma EvolvesApply(t: Table, id: nat, c: Change, now: int)
    ensures Evolves(t, Apply(t, id, c, now))
  {
    hide Bit;
  }

  lemma EvolvesDecide(t: Table, config: Config, p: IpPacket, choice: Choice, now: int)
    requires Inv(t, config) && WireKey(Key(p)) && Key(p) !in t.tcp
    ensures Evolves(t, Decide(t, config, p, choice, now).t)
  {
    hide Inv, WireKey, Register;
    var action := if choice.Route? then choice.action else Direct(false);
    InvRegister(t, config, Key(p), action, p.tcpSequence, now);
    var (t', error) := Register(t, config, Key(p), action, p.tcpSequence, now);
    assert Evolves(t, t') && Evolves(t, t);
  }

  lemma EvolvesStep(m: Machine, config: Config, e: Event)
    requires MachineInv(m, config) && FromWire(e)
    ensures Evolves(m.t, Step(m, config, e).t)
  {
    hide Inv, Put, WellMade, Decide, Apply, Bit, WireKey;
    match e
    case Arrives(p) => if m.stage.Idle? && Reuses(m.t, p) { InvDrop(m.t, config, Key(p)); }
    case ListenerPacket(p, now) =>
      var key := FlowKey(ProtoTCP, p.destination, p.source);
      if key in m.t.reverse {
        InvReverse(m.t, config, key);
        EvolvesPut(m.t, config, m.t.reverse[key].(lastSeen := now));
      }
    case Accepted(key, stopped) =>
      if key in m.t.reverse {
        InvReverse(m.t, config, key);
        EvolvesPut(m.t, config, m.t.reverse[key].(accepted := true));
      }
    case Incoming(p) =>
    case Decides(choice, now) => if m.stage.Unknown? { EvolvesDecide(m.t, config, m.stage.packet, choice, now); }
    case Touches(now) => if m.stage.Holding? { EvolvesApply(m.t, m.stage.flow.id, Touch(m.stage.packet), now); }
    case Tracks(sent, now) =>
      if m.stage.Tracking? {
        EvolvesApply(m.t, m.stage.flow.id, Track(m.stage.packet.tcpFlags, m.stage.outbound), now);
      }
    case Finished(id, now) => EvolvesApply(m.t, id, End, now);
    case Swept(now) =>
    case SweptDirect(key, id, seen) =>
  }

  /** The flows bound to a listener connection by a run, in order. */
  function AcceptedIds(config: Config, es: seq<Event>): seq<nat> {
    if es == [] then [] else
    var before, e := es[..|es| - 1], es[|es| - 1];
    var rest := AcceptedIds(config, before);
    if e.Accepted? then
      (match Accept(Run(config, before).t, e.key, e.stopped).1
       case Some(id) => rest + [id]
       case None => rest)
    else rest
  }

  /** Every number in ids is used, and its record, while stored, is accepted. */
  ghost predicate Spent(t: Table, ids: seq<nat>) {
    && (forall i :: 0 <= i < |ids| ==> ids[i] < t.nextId)
    && (forall i, k :: 0 <= i < |ids| && k in t.tcp && t.tcp[k].id == ids[i] ==> t.tcp[k].accepted)
  }

  /** No flow is accepted twice, in any run. */
  lemma {:induction false} AcceptedOnce(config: Config, es: seq<Event>)
    requires forall i :: 0 <= i < |es| ==> FromWire(es[i])
    ensures var ids := AcceptedIds(config, es);
            Spent(Run(config, es).t, ids) && forall i, j :: 0 <= i < j < |ids| ==> ids[i] != ids[j]
  {
    hide Inv, Step;
    if es != [] {
      var before, e := es[..|es| - 1], es[|es| - 1];
      AcceptedOnce(config, before);
      InvRun(config, before);
      var m := Run(config, before);
      EvolvesStep(m, config, e);
      SpentStep(m, config, e, AcceptedIds(config, before));
    }
  }

  lemma SpentStep(m: Machine, config: Config, e: Event, ids: seq<nat>)
    requires MachineInv(m, config) && Spent(m.t, ids) && Evolves(m.t, Step(m, config, e).t)
    ensures Spent(Step(m, config, e).t, ids)
    ensures e.Accepted? && Accept(m.t, e.key, e.stopped).1.Some? ==>
              var id := Accept(m.t, e.key, e.stopped).1.value;
              id !in ids && Spent(Step(m, config, e).t, ids + [id])
  {
    hide Inv, Step;
    if e.Accepted? && Accept(m.t, e.key, e.stopped).1.Some? {
      AcceptIsFirst(m, config, e, ids);
    }
  }

  lemma AcceptIsFirst(m: Machine, config: Config, e: Event, ids: seq<nat>)
    requires Inv(m.t, config) && Spent(m.t, ids) && e.Accepted? && Accept(m.t, e.key, e.stopped).1.Some?
    ensures var id, t' := Accept(m.t, e.key, e.stopped).1.value, Step(m, config, e).t;
            && id !in ids && id < t'.nextId
            && forall k :: k in t'.tcp && t'.tcp[k].id == id ==> t'.tcp[k].accepted
  {
    hide Inv, WellMade, Put;
    var t := m.t;
    InvReverse(t, config, e.key);
    var f := t.reverse[e.key].(accepted := true);
    PutIsUpdate(t, config, f);
    InvReplace(t, config, f);
    forall k | k in Put(t, f).tcp && Put(t, f).tcp[k].id == f.id ensures k == f.original {
      SameId(Put(t, f), config, k, f.original);
    }
  }

  lemma SameId(t: Table, config: Config, j: FlowKey, k: FlowKey)
    requires Inv(t, config) && j in t.tcp && k in t.tcp && t.tcp[j].id == t.tcp[k].id
    ensures j == k
  {
  }

  // ---- Replies ----

  /** Keys that differ only in the destination port translate to the same key. */
  lemma TranslationForgetsPort(key: FlowKey, port: uint16, config: Config)
    ensures Translate(key.(destination := key.destination.(port := port)), config) == Translate(key, config)
  {
  }

  /** So of two live flows only one can own a reflected key: while it is there, a
      second registration is refused and changes nothing. */
  lemma SecondOwnerRefused(t: Table, config: Config, k: FlowKey, key: FlowKey, action: Action, sequence: uint32, now: int)
    requires Inv(t, config) && k in t.tcp && t.tcp[k].Reflected() && key !in t.tcp
    requires Translate(key, config) == Translate(k, config) && action in {Proxy, Direct(true)}
    ensures Register(t, config, key, action, sequence, now).0 == t
    ensures Register(t, config, key, action, sequence, now).1.Some?
  {
    InvParts(t, config, k);
  }

  /** A packet of the listener is answered exactly when it belongs to a live
      reflected flow, and then with that flow's original endpoints, reversed. */
  lemma ReplyRestoresFlow(t: Table, config: Config, p: IpPacket, now: int)
    requires Inv(t, config)
    ensures Return(t, p, now).1.Some? <==>
            exists k :: k in t.tcp && t.tcp[k].Reflected()
                        && Translate(k, config) == FlowKey(ProtoTCP, p.destination, p.source)
    ensures forall k :: k in t.tcp && t.tcp[k].Reflected()
                        && Translate(k, config) == FlowKey(ProtoTCP, p.destination, p.source) ==>
              Return(t, p, now).1 == Some((k.destination, k.source))
  {
    hide Inv, Translate, WireKey;
    var key := FlowKey(ProtoTCP, p.destination, p.source);
    forall k | k in t.tcp && t.tcp[k].Reflected() && Translate(k, config) == key
      ensures Return(t, p, now).1 == Some((k.destination, k.source))
    {
      InvParts(t, config, k);
    }
    if key in t.reverse {
      InvReverse(t, config, key);
    }
  }

  /** The bytes of such a reply: the rewrite succeeds, and the packet parses with
      the original endpoints, the dropped destination port included. */
  lemma ReplyBytes(t: Table, config: Config, d: seq<byte>, now: int)
    requires Inv(t, config) && Parse(d).Ok? && Parse(d).value.protocol == ProtoTCP
    requires Return(t, Parse(d).value, now).1.Some?
    ensures var p := Parse(d).value;
            var (source, destination) := Return(t, p, now).1.value;
            var rewritten := RewriteResult(d, source, destination);
            && rewritten.Ok?
            && Parse(rewritten.value) == Ok(p.(bytes := rewritten.value, source := source, destination := destination))
  {
    hide Inv, OptionsError, Rewritten;
    var p := Parse(d).value;
    InvReverse(t, config, FlowKey(ProtoTCP, p.destination, p.source));
    var (source, destination) := Return(t, p, now).1.value;
    ParsedIsRepairable(d);
    assert EndpointPair(source, destination) == Ok((source, destination));
    RewriteParses(d, source, destination);
  }

  // ---- Reuse of a client port ----

  /** An old reflected flow and another SYN for its key. */
  ghost predicate ReusesReflected(t: Table, p: IpPacket) {
    Reuses(t, p) && t.tcp[Key(p)].Reflected()
  }

  /** The old flow's record is gone from both maps, and its place is free. */
  lemma PlaceIsFree(t: Table, config: Config, p: IpPacket)
    requires Inv(t, config) && ReusesReflected(t, p)
    ensures var t1 := Drop(t, Key(p));
            && Inv(t1, config) && Key(p) !in t1.tcp && Translate(Key(p), config) !in t1.reverse && t1.nextId == t.nextId
            && |t1.tcp| + |t1.reverse| < 4 * config.maxFlows
            && WireKey(Key(p)) && ListenerPort(config, p.source.addr) != 0
  {
    hide Inv, WireKey, Translate;
    var k := Key(p);
    InvDrop(t, config, k);
    InvParts(t, config, k);
    InvIsExact(t, config);
    var t1 := Drop(t, k);
    assert |t.tcp - {k}| == |(t.tcp - {k}).Keys| && (t.tcp - {k}).Keys == t.tcp.Keys - {k};
    var r := t.tcp[k].translated.value;
    assert |t.reverse - {r}| == |(t.reverse - {r}).Keys| && (t.reverse - {r}).Keys == t.reverse.Keys - {r};
  }

  /** A packet of the listener for the old flow carries its translated key. */
  lemma DelayedKey(t: Table, config: Config, k: FlowKey, q: IpPacket, now: int)
    requires Inv(t, config) && k.protocol == ProtoTCP && Return(t, q, now).1 == Some((k.destination, k.source))
    ensures FlowKey(ProtoTCP, q.destination, q.source) == Translate(k, config)
  {
    hide Inv, Translate, Plain;
    var r := FlowKey(ProtoTCP, q.destination, q.source);
    InvReverse(t, config, r);
    assert t.reverse[r].original.protocol == ProtoTCP;
    assert t.reverse[r].original == k;
  }

  lemma ForwardKeepsReverse(t: Table, f: Flow, p: IpPacket, sent: bool, now: int, r: FlowKey)
    ensures var t' := Forward(t, f, p, sent, now).0;
            && (r in t'.reverse <==> r in t.reverse)
            && (r in t.reverse ==> t'.reverse[r].original == t.reverse[r].original && t'.reverse[r].id == t.reverse[r].id)
  {
    hide Bit;
  }

  /** What a delayed packet of the old connection finds after the reuse. */
  lemma AfterReuse(t: Table, config: Config, p: IpPacket, choice: Choice, dropPlain: bool, sent: bool, now: int)
    requires Inv(t, config) && ReusesReflected(t, p)
    ensures var r, t' := Translate(Key(p), config), Outbound(t, config, p, choice, dropPlain, sent, now).0;
            if choice.Route? && choice.action in {Proxy, Direct(true)}
            then r in t'.reverse && t'.reverse[r].original == Key(p) && t'.reverse[r].id == t.nextId
            else r !in t'.reverse
  {
    hide Inv, WireKey, Translate, Forward;
    PlaceIsFree(t, config, p);
    var t1, r := Drop(t, Key(p)), Translate(Key(p), config);
    if choice.Route? {
      var (t2, error) := Register(t1, config, Key(p), choice.action, p.tcpSequence, now);
      assert error.None? && Key(p) in t2.tcp;
      ForwardKeepsReverse(t2, t2.tcp[Key(p)], p, sent, now, r);
    }
  }

  /** The comment on port reuse promises that a delayed FIN or RST of the old
      connection cannot reach the new one. Exactly: any packet of the listener that
      would have been answered to the old flow is answered to the new one, with the
      same endpoints, if and only if the new SYN is routed to the listener, too;
      otherwise it is dropped. There is no quarantine and no fresh port. */
  lemma DelayedPacketReaches(t: Table, config: Config, p: IpPacket, q: IpPacket, choice: Choice, dropPlain: bool, sent: bool, now: int, later: int)
    requires Inv(t, config) && ReusesReflected(t, p)
    requires Return(t, q, now).1 == Some((p.destination, p.source))
    ensures var t' := Outbound(t, config, p, choice, dropPlain, sent, now).0;
            && (Return(t', q, later).1 == Some((p.destination, p.source)) <==> choice.Route? && choice.action in {Proxy, Direct(true)})
            && (Return(t', q, later).1.None? <==> !(choice.Route? && choice.action in {Proxy, Direct(true)}))
  {
    hide Inv, WireKey, Translate, Outbound;
    DelayedKey(t, config, Key(p), q, now);
    AfterReuse(t, config, p, choice, dropPlain, sent, now);
  }

  // ---- Such a run ----

  function Segment(source: AddrPort, destination: AddrPort, flags: byte, sequence: uint32): IpPacket {
    IpPacket([], source, destination, ProtoTCP, flags, sequence, 0, 20, [])
  }

  /** A client port is used twice for one server; a RST of the first connection's
      listener socket, sent after the second SYN, is passed on to the client with the
      server's address, as if it were the second connection's. */
  lemma ResetReachesNewConnection()
    ensures var config := Config(1000, 7000, 7000);
            var client, server := AddrPort(V4([10, 0, 0, 1]), 4000), AddrPort(V4([93, 184, 216, 34]), 443);
            var syn1, syn2 := Segment(client, server, 2, 100), Segment(client, server, 2, 900);
            var rst := Segment(AddrPort(client.addr, 7000), AddrPort(server.addr, client.port), 4, 1);
            var first := Outbound(EMPTY, config, syn1, Route(Proxy), false, true, 1).0;
            var second := Outbound(first, config, syn2, Route(Proxy), false, true, 2).0;
            && Return(first, rst, 3).1 == Some((server, client))
            && Return(second, rst, 3).1 == Some((server, client))
            && Key(syn2) in second.tcp && second.tcp[Key(syn2)].id == 1
  {
    hide Register, Forward;
    var config := Config(1000, 7000, 7000);
    var client, server := AddrPort(V4([10, 0, 0, 1]), 4000), AddrPort(V4([93, 184, 216, 34]), 443);
    var syn1, syn2 := Segment(client, server, 2, 100), Segment(client, server, 2, 900);
    var rst := Segment(AddrPort(client.addr, 7000), AddrPort(server.addr, client.port), 4, 1);
    var k, r := Key(syn1), Translate(Key(syn1), config);
    assert IsSyn(syn1) && IsSyn(syn2) && Key(syn2) == k;
    FirstSyn(EMPTY, config, syn1, 1);
    var first := Outbound(EMPTY, config, syn1, Route(Proxy), false, true, 1).0;
    assert Drop(first, k) == Table(map[], map[], 1);
    FirstSyn(Drop(first, k), config, syn2, 2);
    assert Outbound(first, config, syn2, Route(Proxy), false, true, 2).0
           == Outbound(Drop(first, k), config, syn2, Route(Proxy), false, true, 2).0;
  }

  /** A SYN that finds an empty table and is routed to the listener. */
  lemma FirstSyn(t: Table, config: Config, p: IpPacket, now: int)
    requires t.tcp == map[] && t.reverse == map[] && config.maxFlows > 0 && ListenerPort(config, p.source.addr) != 0
    requires IsSyn(p) && !Bit(p.tcpFlags, 4)
    ensures var k, r := Key(p), Translate(Key(p), config);
            var f := Flow(t.nextId, k, Some(r), Proxy, p.tcpSequence, now, None, false, false, false);
            Outbound(t, config, p, Route(Proxy), false, true, now).0 == Table(map[k := f], map[r := f], t.nextId + 1)
  {
    hide Bit, Translate, ListenerPort;
  }
}
