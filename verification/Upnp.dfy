/** The lifecycle of the router port mappings: an opt-in switched on and off while
    the runner that owns both mappings starts, publishes and cleans up. */
module Upnp {
  import opened Addresses

  datatype Status = Unset | Disabled | Discovering | PrivateWan | Mapped | Unavailable(reason: string)

  /** What one transport advertises. */
  datatype Slot = Slot(address: Option<AddrPort>, status: Status)

  /** How far a runner's TCP or UDP half has got; Waiting is the TCP half that
      found no mapping and stays for the UDP half. */
  datatype Phase = Looking | Publishing | Waiting | Returned

  datatype Runner = Runner(tcp: Phase, udp: Phase)

  /** A discovery's result; `Public` carries an address that passed the public
      WAN check. */
  datatype Discovery = Failed(reason: string) | Private | Public(address: AddrPort)

  /** `live` holds the goroutines that have not run their last critical section,
      by the number of their context; `followUps` counts those past it that have
      still to call syncUPnP. */
  datatype State = State(
    closed: bool, running: bool, stopping: bool, restart: bool, cancel: Option<nat>,
    tcp: Slot, udp: Slot,
    cancelled: set<nat>, parentDone: bool, started: nat, live: map<nat, Runner>, followUps: nat)

  function Init(): State {
    State(false, false, false, false, None, Slot(None, Unset), Slot(None, Unset), {}, false, 0, map[], 0)
  }

  /** The critical sections and the runners' own progress. The opt-in is read
      before the lock is taken, so a sync carries whatever was read. */
  datatype Event =
    | Sync(enabled: bool)
    | FollowUp(enabled: bool) // syncUPnP called by a runner that ended
    | Close
    | ParentCancel
    | TcpFound(id: nat, result: Discovery)
    | UdpFound(id: nat, answer: Option<Discovery>) // None: the listener has no usable port
    | TcpUpdate(id: nat, healthy: Option<AddrPort>, why: string)
    | UdpUpdate(id: nat, healthy: Option<AddrPort>, why: string)
    | TcpStop(id: nat)
    | UdpStop(id: nat)
    | End(id: nat)

  predicate CtxDone(s: State, id: nat) {
    id in s.cancelled || s.parentDone
  }

  predicate MayPublish(s: State, id: nat) {
    !s.closed && !CtxDone(s, id)
  }

  // ---- syncUPnP, close ----

  function Off(s: State): State {
    s.(tcp := Slot(None, Disabled), udp := Slot(None, Disabled), restart := false,
       stopping := s.stopping || s.cancel.Some?,
       cancelled := if s.cancel.Some? then s.cancelled + {s.cancel.value} else s.cancelled)
  }

  function Start(s: State): State {
    s.(stopping := false, restart := false, cancel := Some(s.started), running := true,
       tcp := s.tcp.(status := Discovering), udp := s.udp.(status := Discovering),
       live := s.live[s.started := Runner(Looking, Looking)], started := s.started + 1)
  }

  function Synced(s: State, enabled: bool): State {
    if s.closed then s
    else if !enabled then Off(s)
    else if s.running then s.(restart := s.restart || s.stopping)
    else Start(s)
  }

  function Closed(s: State): State {
    if s.closed then s
    else s.(closed := true, cancelled := if s.cancel.Some? then s.cancelled + {s.cancel.value} else s.cancelled)
  }

  // ---- runUPnP, runQUICUPnP ----

  function TcpFinds(s: State, id: nat, result: Discovery): (State, Phase) {
    match result
    case Failed(reason) => (if MayPublish(s, id) then s.(tcp := s.tcp.(status := Unavailable(reason))) else s, Waiting)
    case Private => (if MayPublish(s, id) then s.(tcp := s.tcp.(status := PrivateWan)) else s, Returned)
    case Public(a) => (if MayPublish(s, id) then s.(tcp := Slot(Some(a), Mapped)) else s, Publishing)
  }

  function UdpFinds(s: State, id: nat, answer: Option<Discovery>): (State, Phase) {
    match answer
    case None => (s, Returned)
    case Some(Failed(reason)) => (if MayPublish(s, id) then s.(udp := s.udp.(status := Unavailable(reason))) else s, Returned)
    case Some(Private) => (if MayPublish(s, id) then s.(udp := s.udp.(status := PrivateWan)) else s, Returned)
    case Some(Public(a)) => (if MayPublish(s, id) then s.(udp := Slot(Some(a), Mapped)) else s, Publishing)
  }

  function TcpUpdated(s: State, id: nat, healthy: Option<AddrPort>, why: string): State {
    s.(tcp := if MayPublish(s, id) && healthy.Some? then Slot(healthy, Mapped) else Slot(None, Unavailable(why)))
  }

  function UdpUpdated(s: State, id: nat, healthy: Option<AddrPort>, why: string): State {
    s.(udp := if MayPublish(s, id) && healthy.Some? then Slot(healthy, Mapped)
              else Slot(None, if MayPublish(s, id) then Unavailable(why) else s.udp.status))
  }

  function Ended(s: State, id: nat): State {
    s.(running := false, stopping := false, restart := false, cancel := None,
       tcp := s.tcp.(address := None), udp := s.udp.(address := None),
       live := s.live - {id}, followUps := s.followUps + if !s.closed && s.restart then 1 else 0)
  }

  /** Which steps a runner in this phase can take. */
  predicate Enabled(s: State, e: Event) {
    match e
    case FollowUp(_) => s.followUps > 0
    case TcpFound(id, _) => id in s.live && s.live[id].tcp == Looking
    case UdpFound(id, _) => id in s.live && s.live[id].udp == Looking
    case TcpUpdate(id, _, _) => id in s.live && s.live[id].tcp == Publishing
    case UdpUpdate(id, _, _) => id in s.live && s.live[id].udp == Publishing
    case TcpStop(id) => id in s.live && ((s.live[id].tcp == Publishing && CtxDone(s, id))
                                         || (s.live[id].tcp == Waiting && (CtxDone(s, id) || s.live[id].udp == Returned)))
    case UdpStop(id) => id in s.live && s.live[id].udp == Publishing && CtxDone(s, id)
    case End(id) => id in s.live && s.live[id] == Runner(Returned, Returned)
    case _ => true
  }

  function Effect(s: State, e: Event): State
    requires Enabled(s, e)
  {
    match e
    case Sync(enabled) => Synced(s, enabled)
    case FollowUp(enabled) => Synced(s.(followUps := s.followUps - 1), enabled)
    case Close => Closed(s)
    case ParentCancel => s.(parentDone := true)
    case TcpFound(id, result) =>
      var (s', phase) := TcpFinds(s, id, result);
      s'.(live := s.live[id := s.live[id].(tcp := phase)])
    case UdpFound(id, answer) =>
      var (s', phase) := UdpFinds(s, id, answer);
      s'.(live := s.live[id := s.live[id].(udp := phase)])
    case TcpUpdate(id, healthy, why) => TcpUpdated(s, id, healthy, why)
    case UdpUpdate(id, healthy, why) => UdpUpdated(s, id, healthy, why)
    case TcpStop(id) => s.(live := s.live[id := s.live[id].(tcp := Returned)])
    case UdpStop(id) => s.(live := s.live[id := s.live[id].(udp := Returned)])
    case End(id) => Ended(s, id)
  }

  function Step(s: State, e: Event): State {
    if Enabled(s, e) then Effect(s, e) else s
  }

  function Run(s: State, es: seq<Event>): State {
    if es == [] then s else Step(Run(s, es[..|es| - 1]), es[|es| - 1])
  }

  // ---- What every step keeps ----

  ghost predicate Inv(s: State) {
    && s.live.Keys == (if s.running && s.cancel.Some? then {s.cancel.value} else {})
    && (s.running <==> s.cancel.Some?)
    && (s.running ==> s.cancel.value < s.started)
    && (forall id :: id in s.cancelled ==> id < s.started)
    && (s.stopping ==> s.running && s.cancel.value in s.cancelled)
    && (s.running && !s.closed && s.cancel.value in s.cancelled ==> s.stopping)
    && (s.restart ==> s.stopping)
    && (s.stopping || !s.running ==> s.tcp.address == None && s.udp.address == None)
  }

  lemma InvStep(s: State, e: Event)
    requires Inv(s)
    ensures Inv(Step(s, e))
  {
    hide Step, Inv;
    match e
    case Sync(_) => InvSyncs(s, e);
    case FollowUp(_) => InvSyncs(s, e);
    case TcpFound(_, _) => InvRunner(s, e);
    case UdpFound(_, _) => InvRunner(s, e);
    case TcpUpdate(_, _, _) => InvRunner(s, e);
    case UdpUpdate(_, _, _) => InvRunner(s, e);
    case _ => InvEnds(s, e);
  }

  lemma InvSyncs(s: State, e: Event)
    requires Inv(s) && (e.Sync? || e.FollowUp?)
    ensures Inv(Step(s, e))
  {
    if Enabled(s, e) {
      InvSynced(if e.Sync? then s else s.(followUps := s.followUps - 1), e.enabled);
    }
    hide Inv, Synced;
  }

  lemma InvEnds(s: State, e: Event)
    requires Inv(s) && (e.Close? || e.ParentCancel? || e.TcpStop? || e.UdpStop? || e.End?)
    ensures Inv(Step(s, e))
  {
  }

  lemma InvRunner(s: State, e: Event)
    requires Inv(s) && (e.TcpFound? || e.UdpFound? || e.TcpUpdate? || e.UdpUpdate?)
    ensures Inv(Step(s, e))
  {
    if Enabled(s, e) {
      Recorded(s, e);
      SlotsChanged(s, Effect(s, e));
    }
    hide Inv;
  }

  /** A runner's finding or update touches the slots and its own progress only, and
      advertises an address only while it may publish. */
  ghost predicate OnlySlots(s: State, s': State) {
    && s' == s.(tcp := s'.tcp, udp := s'.udp, live := s'.live) && s'.live.Keys == s.live.Keys
    && (s'.tcp.address.Some? ==> s.tcp.address.Some? || exists id :: id in s.live && MayPublish(s, id))
    && (s'.udp.address.Some? ==> s.udp.address.Some? || exists id :: id in s.live && MayPublish(s, id))
  }

  lemma Recorded(s: State, e: Event)
    requires Enabled(s, e) && (e.TcpFound? || e.UdpFound? || e.TcpUpdate? || e.UdpUpdate?)
    ensures OnlySlots(s, Effect(s, e))
  {
    if e.TcpFound? {
      TcpRecorded(s, e.id, e.result);
    } else if e.UdpFound? {
      UdpRecorded(s, e.id, e.answer);
    }
  }

  lemma TcpRecorded(s: State, id: nat, result: Discovery)
    requires Enabled(s, TcpFound(id, result))
    ensures OnlySlots(s, Effect(s, TcpFound(id, result)))
  {
  }

  lemma UdpRecorded(s: State, id: nat, answer: Option<Discovery>)
    requires Enabled(s, UdpFound(id, answer))
    ensures OnlySlots(s, Effect(s, UdpFound(id, answer)))
  {
  }

  lemma SlotsChanged(s: State, s': State)
    requires Inv(s) && OnlySlots(s, s')
    ensures Inv(s')
  {
    if id :| id in s.live && MayPublish(s, id) {
      assert id == s.cancel.value;
    }
  }

  lemma InvSynced(s: State, enabled: bool)
    requires Inv(s)
    ensures Inv(Synced(s, enabled))
  {
  }

  /** The same for a step that is known to happen. */
  lemma InvEffect(s: State, e: Event)
    requires Inv(s) && Enabled(s, e)
    ensures Inv(Effect(s, e))
  {
    hide Inv, Enabled, Effect;
    InvStep(s, e);
  }

  lemma EndKeepsInv(s: State, id: nat)
    requires Inv(s) && Enabled(s, End(id))
    ensures Effect(s, End(id)) == Ended(s, id) && Inv(Ended(s, id))
  {
    hide Inv;
    InvEffect(s, End(id));
  }

  /** Over all interleavings at most one runner is live, it is the one the flags
      speak of, and an advertised address belongs to it. */
  lemma {:induction false} InvRun(es: seq<Event>)
    ensures Inv(Run(Init(), es))
  {
    if es != [] {
      InvRun(es[..|es| - 1]);
      InvStep(Run(Init(), es[..|es| - 1]), es[|es| - 1]);
    }
  }

  lemma AtMostOneRunner(es: seq<Event>)
    ensures var s := Run(Init(), es);
            && |s.live| <= 1
            && (s.tcp.address.Some? || s.udp.address.Some? ==> s.running && |s.live| == 1 && !s.stopping)
  {
    InvRun(es);
    hide Run;
    var s := Run(Init(), es);
    assert |s.live| == |s.live.Keys|;
  }

  // ---- Off ----

  predicate Enabling(e: Event) {
    (e.Sync? || e.FollowUp?) && e.enabled
  }

  /** Switched off: nothing is advertised, no runner may publish, none will start. */
  ghost predicate Withdrawn(s: State) {
    && Inv(s)
    && s.tcp.address == None && s.udp.address == None && s.udp.status == Disabled
    && (s.running ==> s.cancel.value in s.cancelled)
  }

  lemma WithdrawnStep(s: State, e: Event)
    requires Withdrawn(s) && !Enabling(e)
    ensures Withdrawn(Step(s, e)) && Step(s, e).started == s.started
    ensures Step(s, e).tcp.status ==
            if e.TcpUpdate? && Enabled(s, e) then Unavailable(e.why)
            else if e.Sync? && !s.closed then Disabled
            else if e.FollowUp? && Enabled(s, e) && !s.closed then Disabled
            else s.tcp.status
  {
    InvStep(s, e);
    hide Run;
    if Enabled(s, e) {
      WithdrawnEffect(s, e);
    }
  }

  lemma WithdrawnEffect(s: State, e: Event)
    requires Withdrawn(s) && !Enabling(e) && Enabled(s, e)
    ensures var s' := Effect(s, e);
            && s'.tcp.address == None && s'.udp.address == None && s'.udp.status == Disabled
            && (s'.running ==> s'.cancel.value in s'.cancelled) && s'.started == s.started
            && s'.tcp.status == (if e.TcpUpdate? then Unavailable(e.why)
                                 else if (e.Sync? || e.FollowUp?) && !s.closed then Disabled
                                 else s.tcp.status)
  {
    assert forall id :: id in s.live ==> id in s.cancelled;
  }

  /** After a disabling sync no address is advertised and no runner starts until an
      enabling sync, whatever the runners and the routers do; the UDP half keeps
      saying so, too. */
  lemma {:induction false} NoAddressWhileOff(s: State, es: seq<Event>)
    requires Inv(s) && !s.closed
    requires forall i :: 0 <= i < |es| ==> !Enabling(es[i])
    ensures var s' := Run(Step(s, Sync(false)), es);
            Withdrawn(s') && s'.started == s.started
  {
    InvStep(s, Sync(false));
    if es != [] {
      NoAddressWhileOff(s, es[..|es| - 1]);
      hide Step, Run;
      assert Run(Step(s, Sync(false)), es) == Step(Run(Step(s, Sync(false)), es[..|es| - 1]), es[|es| - 1]) by { Last(Step(s, Sync(false)), es); }
      WithdrawnStep(Run(Step(s, Sync(false)), es[..|es| - 1]), es[|es| - 1]);
    }
  }

  lemma Last(s: State, es: seq<Event>)
    requires es != []
    ensures Run(s, es) == Step(Run(s, es[..|es| - 1]), es[|es| - 1])
  {
  }

  /** The TCP half does not: it says "disabled" after a disabling sync until, and
      only until, the stopping runner still reads a router update. Syncs and steps
      that cannot happen aside, that is exactly the condition. */
  ghost predicate TcpUpdateRead(s: State, es: seq<Event>) {
    exists i :: 0 <= i < |es| && es[i].TcpUpdate? && Enabled(Run(s, es[..i]), es[i])
  }

  lemma {:induction false} TcpSaysDisabledIffNoUpdate(s: State, es: seq<Event>)
    requires Inv(s) && !s.closed
    requires forall i :: 0 <= i < |es| ==> !es[i].Sync? && !es[i].FollowUp?
    ensures var off := Step(s, Sync(false));
            Run(off, es).tcp.status == Disabled <==> !TcpUpdateRead(off, es)
  {
    var off := Step(s, Sync(false));
    if es == [] {
      assert off.tcp.status == Disabled;
    } else {
      var n := |es| - 1;
      TcpSaysDisabledIffNoUpdate(s, es[..n]);
      NoAddressWhileOff(s, es[..n]);
      hide Run, Step, Enabled, Inv;
      Last(off, es);
      WithdrawnStep(Run(off, es[..n]), es[n]);
      ReadLast(off, es);
    }
  }

  lemma ReadLast(s: State, es: seq<Event>)
    requires es != []
    ensures var n := |es| - 1;
            TcpUpdateRead(s, es) <==> TcpUpdateRead(s, es[..n]) || (es[n].TcpUpdate? && Enabled(Run(s, es[..n]), es[n]))
  {
    hide Run, Enabled;
    var n := |es| - 1;
    assert forall i :: 0 <= i < n ==> es[..n][..i] == es[..i] && es[..n][i] == es[i];
    if TcpUpdateRead(s, es) {
      var i :| 0 <= i < |es| && es[i].TcpUpdate? && Enabled(Run(s, es[..i]), es[i]);
      if i < n {
        assert es[..n][i].TcpUpdate? && Enabled(Run(s, es[..n][..i]), es[..n][i]);
      }
    }
    if TcpUpdateRead(s, es[..n]) {
      var i :| 0 <= i < n && es[..n][i].TcpUpdate? && Enabled(Run(s, es[..n][..i]), es[..n][i]);
      assert es[i].TcpUpdate? && Enabled(Run(s, es[..i]), es[i]);
    }
  }

  // ---- What is advertised, in full ----

  /** Neither the runtime is closed nor this runner told to stop. */
  predicate Allowed(s: State, id: nat) {
    !s.closed && id !in s.cancelled && !s.parentDone
  }

  /** What the TCP half advertises after a step: a finding or update that may be published,
      nothing after another update, after its runner's end and after a disabling sync. */
  function TcpNext(s: State, before: Option<AddrPort>, e: Event): Option<AddrPort> {
    match e
    case TcpFound(id, result) => if result.Public? && Allowed(s, id) then Some(result.address) else before
    case TcpUpdate(id, healthy, _) => if Allowed(s, id) then healthy else None
    case Sync(enabled) => if enabled || s.closed then before else None
    case FollowUp(enabled) => if enabled || s.closed then before else None
    case End(_) => None
    case _ => before
  }

  function UdpNext(s: State, before: Option<AddrPort>, e: Event): Option<AddrPort> {
    match e
    case UdpFound(id, answer) => if answer.Some? && answer.value.Public? && Allowed(s, id) then Some(answer.value.address) else before
    case UdpUpdate(id, healthy, _) => if Allowed(s, id) then healthy else None
    case Sync(enabled) => if enabled || s.closed then before else None
    case FollowUp(enabled) => if enabled || s.closed then before else None
    case End(_) => None
    case _ => before
  }

  /** The same over a run, steps that cannot happen left out. */
  ghost function TcpAnnounced(es: seq<Event>): Option<AddrPort> {
    if es == [] then None else
    var before, s, e := TcpAnnounced(es[..|es| - 1]), Run(Init(), es[..|es| - 1]), es[|es| - 1];
    if Enabled(s, e) then TcpNext(s, before, e) else before
  }

  ghost function UdpAnnounced(es: seq<Event>): Option<AddrPort> {
    if es == [] then None else
    var before, s, e := UdpAnnounced(es[..|es| - 1]), Run(Init(), es[..|es| - 1]), es[|es| - 1];
    if Enabled(s, e) then UdpNext(s, before, e) else before
  }

  /** In every run both halves advertise exactly that. */
  lemma {:induction false} AdvertisedIsHistory(es: seq<Event>)
    ensures Run(Init(), es).tcp.address == TcpAnnounced(es) && Run(Init(), es).udp.address == UdpAnnounced(es)
  {
    hide Step, Enabled, TcpNext, UdpNext;
    if es != [] {
      AdvertisedIsHistory(es[..|es| - 1]);
      AdvertisedStep(Run(Init(), es[..|es| - 1]), es[|es| - 1]);
    }
  }

  lemma AdvertisedStep(s: State, e: Event)
    ensures Step(s, e).tcp.address == if Enabled(s, e) then TcpNext(s, s.tcp.address, e) else s.tcp.address
    ensures Step(s, e).udp.address == if Enabled(s, e) then UdpNext(s, s.udp.address, e) else s.udp.address
  {
    hide Enabled;
  }

  /** Such a run: on, mapped, off, and one late update. */
  lemma TcpOverwritesDisabled(a: AddrPort)
    ensures var s := Run(Init(), [Sync(true), TcpFound(0, Public(a)), Sync(false), TcpUpdate(0, None, "lost")]);
            s.tcp.status == Unavailable("lost") && s.udp.status == Disabled && s.stopping
  {
    var es := [Sync(true), TcpFound(0, Public(a)), Sync(false), TcpUpdate(0, None, "lost")];
    assert es[..3] == [Sync(true), TcpFound(0, Public(a)), Sync(false)];
    assert es[..3][..2] == [Sync(true), TcpFound(0, Public(a))];
    assert es[..3][..2][..1] == [Sync(true)] && [Sync(true)][..0] == [];
    hide Run, Step;
    Last(Init(), es);
    Last(Init(), es[..3]);
    Last(Init(), es[..3][..2]);
    Last(Init(), [Sync(true)]);
    Nothing(Init());
    FirstSteps(a);
  }

  lemma Nothing(s: State)
    ensures Run(s, []) == s
  {
  }

  function MappedOnce(a: AddrPort): State {
    Start(Init()).(tcp := Slot(Some(a), Mapped), live := map[0 := Runner(Publishing, Looking)])
  }

  lemma FirstSteps(a: AddrPort)
    ensures Step(Init(), Sync(true)) == Start(Init())
    ensures Step(Start(Init()), TcpFound(0, Public(a))) == MappedOnce(a)
    ensures Step(MappedOnce(a), Sync(false)) == Off(MappedOnce(a))
    ensures Step(Off(MappedOnce(a)), TcpUpdate(0, None, "lost")) ==
            Off(MappedOnce(a)).(tcp := Slot(None, Unavailable("lost")))
    ensures Off(MappedOnce(a)).stopping && Off(MappedOnce(a)).udp.status == Disabled
  {
  }

  // ---- Off and on again ----

  predicate TurnsOff(e: Event) {
    e.Close? || ((e.Sync? || e.FollowUp?) && !e.enabled)
  }

  /** While the old runner cleans up, an enabling sync leaves a note and starts
      nothing; the note stays until the runner ends. */
  lemma {:induction false} NoteStays(s: State, es: seq<Event>)
    requires Inv(s) && !s.closed && s.restart
    requires forall i :: 0 <= i < |es| ==> !TurnsOff(es[i]) && !es[i].End?
    ensures var s' := Run(s, es);
            Inv(s') && !s'.closed && s'.restart && s'.cancel == s.cancel && s'.started == s.started
  {
    if es != [] {
      NoteStays(s, es[..|es| - 1]);
      hide Run, Step, Inv;
      Last(s, es);
      InvStep(Run(s, es[..|es| - 1]), es[|es| - 1]);
      NoteStep(Run(s, es[..|es| - 1]), es[|es| - 1]);
    }
  }

  lemma NoteStep(s: State, e: Event)
    requires Inv(s) && !s.closed && s.restart && !TurnsOff(e) && !e.End?
    ensures var s' := Step(s, e);
            !s'.closed && s'.restart && s'.cancel == s.cancel && s'.started == s.started
  {
  }

  predicate Syncs(e: Event) {
    e.Sync? || e.FollowUp?
  }

  predicate SomeSync(es: seq<Event>) {
    exists i :: 0 <= i < |es| && Syncs(es[i])
  }

  /** After the runner has ended, the first sync starts a runner and the others
      leave it alone. */
  lemma {:induction false} FirstSyncStarts(s: State, es: seq<Event>)
    requires Inv(s) && !s.closed && !s.running && s.followUps > 0
    requires forall i :: 0 <= i < |es| ==> !TurnsOff(es[i]) && !es[i].End?
    ensures var s' := Run(s, es);
            && Inv(s') && !s'.closed && !s'.stopping
            && (s'.running <==> SomeSync(es))
            && s'.started == s.started + (if s'.running then 1 else 0)
            && (if s'.running then s'.cancel == Some(s.started) else s'.followUps == s.followUps)
  {
    if es != [] {
      hide Inv, Step;
      var n := |es| - 1;
      FirstSyncStarts(s, es[..n]);
      hide Run;
      Last(s, es);
      var s1 := Run(s, es[..n]);
      InvStep(s1, es[n]);
      QuietStep(s1, es[n]);
      SomeSyncLast(es);
      hide SomeSync, TurnsOff, Syncs;
    }
  }

  lemma SomeSyncLast(es: seq<Event>)
    requires es != []
    ensures SomeSync(es) <==> SomeSync(es[..|es| - 1]) || Syncs(es[|es| - 1])
  {
    var n := |es| - 1;
    assert forall i :: 0 <= i < n ==> es[..n][i] == es[i];
    if SomeSync(es) && !Syncs(es[n]) {
      var i :| 0 <= i < |es| && Syncs(es[i]);
      assert Syncs(es[..n][i]);
    }
  }

  lemma QuietStep(s: State, e: Event)
    requires Inv(s) && !s.closed && !s.stopping && (s.running || s.followUps > 0)
    requires !TurnsOff(e) && !e.End?
    ensures var s' := Step(s, e);
            && !s'.closed && !s'.stopping && (s'.running <==> s.running || Syncs(e))
            && s'.started == s.started + (if s'.running && !s.running then 1 else 0)
            && (if s.running then s'.cancel == s.cancel
                else if s'.running then s'.cancel == Some(s.started)
                else s'.followUps == s.followUps)
  {
  }

  /** Off and on again during the cleanup: once the old runner has ended, however
      its last steps and any further enabling syncs fall, exactly one replacement
      is started, by the first sync. */
  lemma ExactlyOneReplacement(s: State, before: seq<Event>, id: nat, after: seq<Event>)
    requires Inv(s) && !s.closed && s.stopping
    requires forall i :: 0 <= i < |before| ==> !TurnsOff(before[i]) && !before[i].End?
    requires forall i :: 0 <= i < |after| ==> !TurnsOff(after[i]) && !after[i].End?
    requires Enabled(Run(Step(s, Sync(true)), before), End(id))
    ensures var ended := Step(Run(Step(s, Sync(true)), before), End(id));
            var s' := Run(ended, after);
            && ended.live == map[] && ended.followUps > 0 && ended.started == s.started
            && (if SomeSync(after)
                then s'.running && s'.started == s.started + 1 && s'.live.Keys == {s.started}
                else s'.live == map[] && s'.started == s.started)
  {
    InvStep(s, Sync(true));
    NoteStays(Step(s, Sync(true)), before);
    hide Run;
    var last := Run(Step(s, Sync(true)), before);
    InvStep(last, End(id));
    var ended := Step(last, End(id));
    assert ended.live.Keys == {};
    FirstSyncStarts(ended, after);
    assert Run(ended, after).live.Keys == {} ==> Run(ended, after).live == map[];
  }

  /** Closed for good: no runner is started any more. */
  lemma {:induction false} ClosedStartsNothing(s: State, es: seq<Event>)
    requires s.closed
    ensures Run(s, es).closed && Run(s, es).started == s.started
  {
    if es != [] {
      ClosedStartsNothing(s, es[..|es| - 1]);
      hide Run;
      ClosedStep(Run(s, es[..|es| - 1]), es[|es| - 1]);
      hide Step;
      Last(s, es);
    }
  }

  lemma ClosedStep(s: State, e: Event)
    requires s.closed
    ensures Step(s, e).closed && Step(s, e).started == s.started
  {
  }

  // ---- The runtime object ----

  class FileDirectRuntime {
    var closed: bool
    var upnpRunning: bool
    var upnpStopping: bool
    var upnpRestart: bool
    var upnpCancel: Option<nat>
    var tcp: Slot // upnpAddress, upnpState and upnpReason
    var udp: Slot // udpUPnPAddress, udpUPnPState and udpUPnPReason
    var cancelled: set<nat> // the contexts that are done by their own cancel
    var parentDone: bool
    var started: nat
    ghost var live: map<nat, Runner>
    ghost var followUps: nat

    ghost function Abs(): State
      reads this
    {
      State(closed, upnpRunning, upnpStopping, upnpRestart, upnpCancel, tcp, udp, cancelled, parentDone, started, live, followUps)
    }

    ghost predicate Valid()
      reads this
    {
      Inv(Abs())
    }

    constructor ()
      ensures Valid() && Abs() == Init()
    {
      closed, upnpRunning, upnpStopping, upnpRestart, upnpCancel := false, false, false, false, None;
      tcp, udp := Slot(None, Unset), Slot(None, Unset);
      cancelled, parentDone, started, live, followUps := {}, false, 0, map[], 0;
    }

    method SyncUPnP(enabled: bool)
      requires Valid()
      modifies this
      ensures Valid() && Abs() == Effect(old(Abs()), Sync(enabled))
    {
      InvSynced(Abs(), enabled);
      assert Effect(Abs(), Sync(enabled)) == Synced(Abs(), enabled);
      hide Inv, Effect, Enabled;
      if closed {
        return;
      }
      if !enabled {
        SwitchOff();
        return;
      }
      if upnpRunning {
        if upnpStopping {
          upnpRestart := true;
        }
        return;
      }
      SwitchOn();
    }

    method SwitchOff()
      modifies this
      ensures Abs() == Off(old(Abs()))
    {
      tcp, udp := Slot(None, Disabled), Slot(None, Disabled);
      upnpRestart := false;
      if upnpCancel.Some? {
        upnpStopping := true;
        cancelled := cancelled + {upnpCancel.value};
      }
    }

    method SwitchOn()
      modifies this
      ensures Abs() == Start(old(Abs()))
    {
      upnpStopping, upnpRestart := false, false;
      upnpCancel := Some(started);
      tcp := tcp.(status := Discovering);
      udp := udp.(status := Discovering);
      upnpRunning := true;
      live := live[started := Runner(Looking, Looking)];
      started := started + 1;
    }

    method CloseRuntime()
      requires Valid()
      modifies this
      ensures Valid() && Abs() == Effect(old(Abs()), Close)
    {
      hide Inv;
      InvEffect(Abs(), Close);
      if closed {
        return;
      }
      closed := true;
      if upnpCancel.Some? {
        cancelled := cancelled + {upnpCancel.value};
      }
    }

    method FoundTCP(id: nat, result: Discovery)
      requires Valid() && Enabled(Abs(), TcpFound(id, result))
      modifies this
      ensures Valid() && Abs() == Effect(old(Abs()), TcpFound(id, result))
    {
      hide Inv;
      InvEffect(Abs(), TcpFound(id, result));
      var may := !closed && !(id in cancelled || parentDone);
      match result {
        case Failed(reason) =>
          if may {
            tcp := tcp.(status := Unavailable(reason));
          }
          live := live[id := live[id].(tcp := Waiting)];
        case Private =>
          if may {
            tcp := tcp.(status := PrivateWan);
          }
          live := live[id := live[id].(tcp := Returned)];
        case Public(address) =>
          if may {
            tcp := Slot(Some(address), Mapped);
          }
          live := live[id := live[id].(tcp := Publishing)];
      }
    }

    method FoundUDP(id: nat, answer: Option<Discovery>)
      requires Valid() && Enabled(Abs(), UdpFound(id, answer))
      modifies this
      ensures Valid() && Abs() == Effect(old(Abs()), UdpFound(id, answer))
    {
      hide Inv;
      InvEffect(Abs(), UdpFound(id, answer));
      var may := !closed && !(id in cancelled || parentDone);
      match answer {
        case None =>
          live := live[id := live[id].(udp := Returned)];
        case Some(Failed(reason)) =>
          if may {
            udp := udp.(status := Unavailable(reason));
          }
          live := live[id := live[id].(udp := Returned)];
        case Some(Private) =>
          if may {
            udp := udp.(status := PrivateWan);
          }
          live := live[id := live[id].(udp := Returned)];
        case Some(Public(address)) =>
          if may {
            udp := Slot(Some(address), Mapped);
          }
          live := live[id := live[id].(udp := Publishing)];
      }
    }

    method UpdatedTCP(id: nat, healthy: Option<AddrPort>, why: string)
      requires Valid() && Enabled(Abs(), TcpUpdate(id, healthy, why))
      modifies this
      ensures Valid() && Abs() == Effect(old(Abs()), TcpUpdate(id, healthy, why))
    {
      hide Inv;
      InvEffect(Abs(), TcpUpdate(id, healthy, why));
      if !closed && !(id in cancelled || parentDone) && healthy.Some? {
        tcp := Slot(healthy, Mapped);
      } else {
        tcp := Slot(None, Unavailable(why));
      }
    }

    method UpdatedUDP(id: nat, healthy: Option<AddrPort>, why: string)
      requires Valid() && Enabled(Abs(), UdpUpdate(id, healthy, why))
      modifies this
      ensures Valid() && Abs() == Effect(old(Abs()), UdpUpdate(id, healthy, why))
    {
      hide Inv;
      InvEffect(Abs(), UdpUpdate(id, healthy, why));
      if !closed && !(id in cancelled || parentDone) && healthy.Some? {
        udp := Slot(healthy, Mapped);
      } else {
        udp := udp.(address := None);
        if !(id in cancelled || parentDone) && !closed {
          udp := udp.(status := Unavailable(why));
        }
      }
    }

    /** The runner's last critical section; `restart` says it calls syncUPnP next. */
    method EndRunner(id: nat) returns (restart: bool)
      requires Valid() && Enabled(Abs(), End(id))
      modifies this
      ensures Valid() && Abs() == Effect(old(Abs()), End(id))
      ensures restart == (followUps > old(followUps))
    {
      ghost var s := Abs();
      EndKeepsInv(s, id);
      hide Inv, Enabled, Effect;
      restart := !closed && upnpRestart;
      upnpRunning, upnpStopping, upnpRestart := false, false, false;
      upnpCancel := None;
      tcp, udp := tcp.(address := None), udp.(address := None);
      live := live - {id};
      followUps := followUps + if restart then 1 else 0;
      assert Abs() == Ended(s, id);
    }

    /** FileDirectStatus's public addresses, for a runtime whose opt-in is on. */
    method PublicAddresses() returns (tcpAddress: Option<AddrPort>, udpAddress: Option<AddrPort>)
      requires Valid()
      ensures tcpAddress == (if closed then None else tcp.address) && udpAddress == (if closed then None else udp.address)
      ensures tcpAddress.Some? || udpAddress.Some? ==> upnpRunning && !upnpStopping && upnpCancel.value !in cancelled
    {
      tcpAddress := if closed then None else tcp.address;
      udpAddress := if closed then None else udp.address;
    }
  }
}
