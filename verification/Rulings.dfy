/** The decision on a SYN holds for every later packet of its flow, over whole runs of
    the interceptor. */
module Rulings {
  import opened Bytes
  import opened Addresses
  import opened Packet
  import opened Reflection
  import opened Interceptor

  /** What was decided on the SYN of a flow, and that SYN's sequence number. */
  datatype Ruling = Ruling(action: Action, sequence: uint32)

  /** What a decision registers. */
  function Ruled(choice: Choice): Option<Action> {
    match choice
    case Route(action) => Some(action)
    case Bypass(remember) => if remember then Some(Direct(false)) else None
    case ClassifyError => None
    case Passthrough => None
  }

  /** The ruling in force for a key: the one of the step that put the key into the table,
      as long as it stays there, whatever else happens in between. */
  ghost function InForce(config: Config, es: seq<Event>, key: FlowKey): Option<Ruling> {
    if es == [] then None else
    var before, e := es[..|es| - 1], es[|es| - 1];
    var m := Run(config, before);
    if key !in Run(config, es).t.tcp then None
    else if key in m.t.tcp then InForce(config, before, key)
    else if e.Decides? && m.stage.Unknown? && Ruled(e.choice).Some? then Some(Ruling(Ruled(e.choice).value, m.stage.packet.tcpSequence))
    else None
  }

  /** A record keeps its action and sequence number while it is stored. */
  ghost predicate SameRulings(t: Table, t': Table) {
    forall k :: k in t'.tcp ==> k in t.tcp && t'.tcp[k].action == t.tcp[k].action && t'.tcp[k].sequence == t.tcp[k].sequence
  }

  lemma RulingsPut(t: Table, config: Config, f: Flow)
    requires Inv(t, config) && Successor(t, f) && f.sequence == t.tcp[f.original].sequence
    ensures SameRulings(t, Put(t, f))
  {
    hide Inv, Put;
    PutIsUpdate(t, config, f);
  }

  lemma RulingsApply(t: Table, id: nat, c: Change, now: int)
    ensures SameRulings(t, Apply(t, id, c, now))
  {
    hide Bit;
  }

  /** Only a decision adds a key, the one of the packet decided on. */
  lemma RulingsStep(m: Machine, config: Config, e: Event)
    requires MachineInv(m, config)
    ensures e.Decides? || SameRulings(m.t, Step(m, config, e).t)
  {
    hide Inv, Put, WellMade, Decide, Apply, Bit, WireKey;
    match e
    case Arrives(p) =>
    case ListenerPacket(p, now) =>
      var key := FlowKey(ProtoTCP, p.destination, p.source);
      if key in m.t.reverse {
        InvReverse(m.t, config, key);
        RulingsPut(m.t, config, m.t.reverse[key].(lastSeen := now));
      }
    case Accepted(key, stopped) =>
      if key in m.t.reverse {
        InvReverse(m.t, config, key);
        RulingsPut(m.t, config, m.t.reverse[key].(accepted := true));
      }
    case Incoming(p) =>
    case Decides(choice, now) =>
    case Touches(now) => if m.stage.Holding? { RulingsApply(m.t, m.stage.flow.id, Touch(m.stage.packet), now); }
    case Tracks(sent, now) =>
      if m.stage.Tracking? {
        RulingsApply(m.t, m.stage.flow.id, Track(m.stage.packet.tcpFlags, m.stage.outbound), now);
      }
    case Finished(id, now) => RulingsApply(m.t, id, End, now);
    case Swept(now) =>
    case SweptDirect(key, id, seen) =>
  }

  lemma RulingsDecide(m: Machine, config: Config, choice: Choice, now: int)
    requires MachineInv(m, config)
    ensures var t' := Step(m, config, Decides(choice, now)).t;
            forall k :: k in t'.tcp ==>
              if k in m.t.tcp then t'.tcp[k] == m.t.tcp[k]
              else m.stage.Unknown? && Key(m.stage.packet) == k && Ruled(choice).Some?
                   && t'.tcp[k].action == Ruled(choice).value && t'.tcp[k].sequence == m.stage.packet.tcpSequence
  {
    hide Inv, WireKey, Translate;
  }

  /** In every run a stored flow has the action of the ruling in force, and so its
      sequence number. */
  lemma {:induction false} StoredIsRuled(config: Config, es: seq<Event>, key: FlowKey)
    requires forall i :: 0 <= i < |es| ==> FromWire(es[i])
    ensures var t := Run(config, es).t;
            key in t.tcp ==> InForce(config, es, key) == Some(Ruling(t.tcp[key].action, t.tcp[key].sequence))
  {
    hide Step, MachineInv;
    if es != [] {
      var before, e := es[..|es| - 1], es[|es| - 1];
      StoredIsRuled(config, before, key);
      InvRun(config, before);
      RulingsStep(Run(config, before), config, e);
      if e.Decides? {
        RulingsDecide(Run(config, before), config, e.choice, e.now);
      }
    }
  }

  lemma NoneInForce(config: Config, es: seq<Event>, key: FlowKey)
    ensures key !in Run(config, es).t.tcp ==> InForce(config, es, key) == None
  {
  }

  /** After any run, with all its interleavings: an undisturbed outbound segment that is not
      the SYN of a new connection gets what the ruling in force for its key says. Without
      one, plain segments pass or are dropped by the DNS guard, and a SYN gets what is
      decided on it, if there is room. */
  lemma SentIsRuled(config: Config, es: seq<Event>, d: seq<byte>, choice: Choice, dropPlain: bool, accepter: bool, delivery: Delivery)
    requires forall i :: 0 <= i < |es| ==> FromWire(es[i])
    requires Parse(d).Ok? && Parse(d).value.protocol == ProtoTCP
    requires SentAs(Run(config, es).t, config, d, Parse(d).value, choice, dropPlain, accepter, delivery)
    ensures var p := Parse(d).value;
            var ruling := InForce(config, es, FlowKey(ProtoTCP, p.source, p.destination));
            if ruling.Some? && (!Syn(p) || ruling.value.sequence == p.tcpSequence) then
              Follows(ruling.value.action, config, d, p, accepter, delivery)
            else if !Syn(p) then if dropPlain then delivery == Nothing else IsLetGo(d, p, accepter, delivery)
            else if choice == ClassifyError then IsReset(p, delivery)
            else if choice == Passthrough || choice == Bypass(false) then IsLetGo(d, p, accepter, delivery)
            else if !HasRoom(Run(config, es).t, config, p, Ruled(choice).value) then
              if choice.Route? then IsReset(p, delivery) else delivery == Nothing
            else Follows(Ruled(choice).value, config, d, p, accepter, delivery)
  {
    var p := Parse(d).value;
    var key := FlowKey(ProtoTCP, p.source, p.destination);
    StoredIsRuled(config, es, key);
    NoneInForce(config, es, key);
    hide Parse, Run, IsReset, IsLetGo, IsReflected, HasRoom, InForce;
  }

  /** The ruling of the flow that the packet thread holds: the one in force when it got it. */
  ghost function Held(config: Config, es: seq<Event>): Option<Ruling> {
    if es == [] || !Run(config, es).stage.Holding? then None
    else if Run(config, es[..|es| - 1]).stage.Holding? then Held(config, es[..|es| - 1])
    else InForce(config, es, Key(Run(config, es).stage.packet))
  }

  lemma HeldStep(m: Machine, config: Config, e: Event)
    requires MachineInv(m, config) && Step(m, config, e).stage.Holding?
    ensures var m' := Step(m, config, e);
            if m.stage.Holding? then m'.stage == m.stage
            else Key(m'.stage.packet) in m'.t.tcp && m'.stage.flow == m'.t.tcp[Key(m'.stage.packet)]
  {
    hide Inv, WireKey, WellMade, Register, Drop, Apply, IsSyn;
  }

  /** With other threads between the sections: the held flow keeps that ruling, also when it
      has been swept meanwhile, and it is all that decides on what is sent. */
  lemma {:induction false} HeldIsRuled(config: Config, es: seq<Event>)
    requires forall i :: 0 <= i < |es| ==> FromWire(es[i])
    requires Run(config, es).stage.Holding?
    ensures var f := Run(config, es).stage.flow;
            Held(config, es) == Some(Ruling(f.action, f.sequence))
  {
    hide Step, InForce, MachineInv;
    if es != [] {
      var before, e := es[..|es| - 1], es[|es| - 1];
      InvRun(config, before);
      HeldStep(Run(config, before), config, e);
      if Run(config, before).stage.Holding? {
        HeldIsRuled(config, before);
      } else {
        StoredIsRuled(config, es, Key(Run(config, es).stage.packet));
      }
    }
  }

  // ---- Accepting and sweeping ----

  /** A listener connection is bound exactly to the live flow whose translation it has, if
      that flow is new and unfinished; other connections are closed. */
  lemma BoundIff(config: Config, es: seq<Event>, key: FlowKey, stopped: bool, id: nat)
    requires forall i :: 0 <= i < |es| ==> FromWire(es[i])
    ensures var t := Run(config, es).t;
            Accept(t, key, stopped).1 == Some(id) <==>
              !stopped && exists k :: k in t.tcp && t.tcp[k].Reflected() && Translate(k, config) == key
                                      && t.tcp[k].id == id && !t.tcp[k].accepted && t.tcp[k].finished == None
  {
    InvRun(config, es);
    hide Run, Inv, Translate, Exact;
    var t := Run(config, es).t;
    if key in t.reverse {
      InvReverse(t, config, key);
      ReverseIs(t, key);
    }
    forall k | k in t.tcp && t.tcp[k].Reflected() && Translate(k, config) == key ensures key in t.reverse && t.reverse[key] == t.tcp[k] {
      InvParts(t, config, k);
      MadeOf(t, config, k);
    }
  }

  lemma ReverseIs(t: Table, key: FlowKey)
    requires key in t.reverse && ReverseEntry(t, key)
    ensures var f := t.reverse[key]; f.original in t.tcp && t.tcp[f.original] == f && f.Reflected()
  {
  }

  lemma MadeOf(t: Table, config: Config, k: FlowKey)
    requires k in t.tcp && TcpEntry(t, config, k) && t.tcp[k].Reflected()
    ensures Translate(k, config) in t.reverse && t.reverse[Translate(k, config)] == t.tcp[k]
  {
    hide Translate, WireKey;
  }

  /** The flow of k, accepted and not finished. */
  predicate Connected(t: Table, k: FlowKey, id: nat) {
    k in t.tcp && t.tcp[k].id == id && t.tcp[k].Reflected() && t.tcp[k].accepted && t.tcp[k].finished == None
  }

  /** The connection ends with this step: its forwarding ends, a RST is forwarded, or its port
      is used again. */
  predicate Disconnects(m: Machine, e: Event, k: FlowKey, id: nat) {
    match e
    case Arrives(p) => m.stage.Idle? && Key(p) == k && Reuses(m.t, p)
    case Touches(_) => m.stage.Holding? && m.stage.flow.id == id && Bit(m.stage.packet.tcpFlags, 4)
    case Tracks(sent, _) => sent && m.stage.Tracking? && m.stage.flow.id == id
    case Finished(finished, _) => finished == id
    case _ => false
  }

  lemma ConnectedPut(t: Table, config: Config, f: Flow, k: FlowKey, id: nat)
    requires Inv(t, config) && Successor(t, f) && Connected(t, k, id)
    requires f.accepted && f.finished == t.tcp[f.original].finished
    ensures Connected(Put(t, f), k, id)
  {
    hide Inv, Put;
    PutIsUpdate(t, config, f);
  }

  lemma ConnectedApply(t: Table, id: nat, c: Change, now: int, k: FlowKey, own: nat)
    requires Connected(t, k, own)
    requires id == own ==> c.Touch? && !Bit(c.packet.tcpFlags, 4)
    ensures Connected(Apply(t, id, c, now), k, own)
  {
    hide Bit;
  }

  lemma ConnectedStep(m: Machine, config: Config, e: Event, k: FlowKey, id: nat)
    requires MachineInv(m, config) && Connected(m.t, k, id) && !Disconnects(m, e, k, id)
    ensures Connected(Step(m, config, e).t, k, id)
  {
    hide Inv, Put, WellMade, Apply, Bit, WireKey, Translate;
    match e
    case ListenerPacket(p, now) =>
      var key := FlowKey(ProtoTCP, p.destination, p.source);
      if m.stage.Idle? && key in m.t.reverse {
        InvReverse(m.t, config, key);
        var f := m.t.reverse[key].(lastSeen := now);
        if f.original == k {
          ConnectedPut(m.t, config, f, k, id);
        } else {
          PutIsUpdate(m.t, config, f);
        }
      }
    case Accepted(key, stopped) =>
      if key in m.t.reverse {
        InvReverse(m.t, config, key);
        PutIsUpdate(m.t, config, m.t.reverse[key].(accepted := true));
      }
    case Touches(now) => if m.stage.Holding? { ConnectedApply(m.t, m.stage.flow.id, Touch(m.stage.packet), now, k, id); }
    case Tracks(sent, now) =>
      if m.stage.Tracking? && sent {
        ConnectedApply(m.t, m.stage.flow.id, Track(m.stage.packet.tcpFlags, m.stage.outbound), now, k, id);
      }
    case Finished(finished, now) => ConnectedApply(m.t, finished, End, now, k, id);
    case _ =>
  }

  /** A connection that was accepted stays in the table, however long it is idle and however
      often the table is swept, until it ends. */
  lemma {:induction false} ConnectionStays(config: Config, es: seq<Event>, more: seq<Event>, k: FlowKey, id: nat)
    requires forall i :: 0 <= i < |es + more| ==> FromWire((es + more)[i])
    requires Connected(Run(config, es).t, k, id)
    requires forall i :: 0 <= i < |more| ==> !Disconnects(Run(config, es + more[..i]), more[i], k, id)
    ensures Connected(Run(config, es + more).t, k, id)
    decreases |more|
  {
    hide Step, Connected, Disconnects, MachineInv, FromWire;
    var all := es + more;
    if more == [] {
      assert all == es;
    } else {
      var n := |more| - 1;
      var before := more[..n];
      forall i | 0 <= i < n ensures more[..i] == before[..i] && more[i] == before[i] {
      }
      assert all[..|all| - 1] == es + before && all[|all| - 1] == more[n];
      forall i | 0 <= i < |es + before| ensures FromWire((es + before)[i]) {
        assert (es + before)[i] == all[i];
      }
      ConnectionStays(config, es, before, k, id);
      InvRun(config, es + before);
      ConnectedStep(Run(config, es + before), config, more[n], k, id);
    }
  }

  /** A sweep removes a flow exactly when it ended more than two minutes ago, or was never
      accepted and has been idle for so long; a direct flow only when it ended. */
  lemma SweptIff(t: Table, k: FlowKey, now: int)
    requires k in t.tcp
    ensures var f := t.tcp[k];
            k !in Sweep(t, now).tcp <==>
              if f.finished.Some? then now > f.finished.value + 120_000_000_000 || (!f.accepted && now > f.lastSeen + 120_000_000_000)
              else f.action != Direct(false) && !f.accepted && now > f.lastSeen + 120_000_000_000
  {
  }
}
