/** The packet broker of the Network Service: a capture loop with one outstanding
    packet, a frame reader, and a shutdown that runs once. */
module Broker {

  /** The capture goroutine: before Receive, writing a packet that the client has not
      got yet, writing one that it has, waiting for its completion, holding it with
      the watchdog still armed, on its way out through shutdown, gone. */
  datatype Capture = Receiving | Writing | Delivered | Waiting | Taken | CaptureLeaving | CaptureGone

  datatype Reader = Reading | ReaderLeaving | ReaderGone

  /** The body of stopOnce: not entered, stop channel closed, device released, pipe
      closed. */
  datatype Phase = Idle | Stopping | DeviceDown | Finished

  /** What the outside world sees of a shutdown, in order. */
  datatype Act = ShutDevice | ClosePipe

  /** `captures` counts the packets the client has got, `received` the completions
      the reader accepted, `consumed` those the capture loop took. `fired` says that
      the watchdog has expired once: its call of shutdown is not undone by Stop. */
  datatype State = State(
    capture: Capture, reader: Reader, phase: Phase, fired: bool,
    captures: nat, received: nat, consumed: nat, buffered: bool, log: seq<Act>)

  const START := State(Receiving, Reading, Idle, false, 0, 0, 0, false, [])

  datatype Event =
    | ReceivePacket(ok: bool)
    | ClientGetsPacket
    | WriteReturns(ok: bool)
    | TakeCompletion
    | StopTimer
    | SeeStop
    | ReadInject(ok: bool)
    | ReadComplete
    | ReadFails
    | TimerFires
    | WatchdogEnters
    | EnterShutdown
    | ReleaseDevice
    | WatchdogClosesPipe
    | FinishShutdown
    | CaptureExit
    | ReaderExit

  /** shutdown is entered by whoever calls it first. */
  function Enter(s: State): State {
    if s.phase == Idle then s.(phase := Stopping) else s
  }

  /** The timer runs from the receipt of a packet to its Stop. A failed write and a
      seen stop are followed by Stop, too, but then shutdown is entered anyway. */
  predicate Armed(s: State) {
    s.capture == Writing || s.capture == Delivered || s.capture == Waiting || s.capture == Taken
  }

  /** One atomic step; an event that is not enabled changes nothing. */
  function Step(s: State, e: Event): State {
    match e
    case ReceivePacket(ok) =>
      if s.capture != Receiving then s else if ok then s.(capture := Writing) else s.(capture := CaptureLeaving)
    case ClientGetsPacket =>
      if s.capture == Writing then s.(capture := Delivered, captures := s.captures + 1) else s
    case WriteReturns(ok) =>
      if s.capture == Delivered && ok then s.(capture := Waiting)
      else if (s.capture == Writing || s.capture == Delivered) && !ok then s.(capture := CaptureLeaving)
      else s
    case TakeCompletion =>
      if s.capture == Waiting && s.buffered
      then s.(capture := Taken, buffered := false, consumed := s.consumed + 1) else s
    case StopTimer => if s.capture == Taken then s.(capture := Receiving) else s
    case SeeStop => if s.capture == Waiting && s.phase != Idle then s.(capture := CaptureLeaving) else s
    case ReadInject(ok) => if s.reader == Reading && !ok then s.(reader := ReaderLeaving) else s
    case ReadComplete =>
      if s.reader != Reading then s
      else if s.buffered then s.(reader := ReaderLeaving) // duplicate capture completion
      else s.(buffered := true, received := s.received + 1)
    case ReadFails => if s.reader == Reading then s.(reader := ReaderLeaving) else s
    case TimerFires => if Armed(s) then s.(fired := true) else s
    case WatchdogEnters => if s.fired then Enter(s) else s
    case EnterShutdown => if s.capture == CaptureLeaving || s.reader == ReaderLeaving then Enter(s) else s
    case ReleaseDevice => if s.phase == Stopping then s.(phase := DeviceDown, log := s.log + [ShutDevice]) else s
    case WatchdogClosesPipe => if s.phase == DeviceDown then s.(log := s.log + [ClosePipe]) else s
    case FinishShutdown => if s.phase == DeviceDown then s.(phase := Finished, log := s.log + [ClosePipe]) else s
    case CaptureExit => if s.capture == CaptureLeaving && s.phase == Finished then s.(capture := CaptureGone) else s
    case ReaderExit => if s.reader == ReaderLeaving && s.phase == Finished then s.(reader := ReaderGone) else s
  }

  function Run(es: seq<Event>): State {
    if es == [] then START else Step(Run(es[..|es| - 1]), es[|es| - 1])
  }

  predicate Released(s: State) {
    s.phase == DeviceDown || s.phase == Finished
  }

  ghost predicate Inv(s: State) {
    && s.received == s.consumed + (if s.buffered then 1 else 0)
    && (if s.capture == Waiting || s.capture == Delivered then s.captures == s.consumed + 1
        else if s.capture == Receiving || s.capture == Writing || s.capture == Taken then s.captures == s.consumed
        else s.consumed <= s.captures <= s.consumed + 1)
    && (!Released(s) ==> s.log == [])
    && (Released(s) ==> s.log != [] && s.log[0] == ShutDevice && forall i :: 1 <= i < |s.log| ==> s.log[i] == ClosePipe)
    && (s.phase == Finished ==> |s.log| >= 2)
    && (s.capture == CaptureGone || s.reader == ReaderGone ==> s.phase == Finished)
  }

  lemma InvStep(s: State, e: Event)
    requires Inv(s)
    ensures Inv(Step(s, e))
  {
    if e.ReleaseDevice? || e.WatchdogClosesPipe? || e.FinishShutdown? {
      InvLogged(s, e);
      hide Step, Inv;
    }
  }

  /** The steps that write the log. */
  lemma InvLogged(s: State, e: Event)
    requires Inv(s) && (e.ReleaseDevice? || e.WatchdogClosesPipe? || e.FinishShutdown?)
    ensures Inv(Step(s, e))
  {
  }

  /** Every run keeps one packet outstanding at most, never loses a completion it
      accepted, releases the device exactly once, and does so before it closes the
      pipe, whoever closes it. */
  lemma {:induction false} RunKeepsProtocol(es: seq<Event>)
    ensures var s := Run(es);
            && Inv(s)
            && s.captures - 1 <= s.consumed <= s.captures
            && s.consumed <= s.received <= s.consumed + 1
            && (forall i :: 0 <= i < |s.log| ==> (s.log[i] == ShutDevice <==> i == 0))
            && (s.capture == CaptureGone && s.reader == ReaderGone ==> |s.log| >= 2)
  {
    hide Step;
    if es != [] {
      RunKeepsProtocol(es[..|es| - 1]);
      InvStep(Run(es[..|es| - 1]), es[|es| - 1]);
    }
  }

  // ---- Shutdown runs to its end ----

  /** The steps that still have to happen, in order, before both acts are done. */
  function Remaining(s: State): seq<Event> {
    if s.phase == Finished then []
    else if s.phase == DeviceDown then [FinishShutdown]
    else if s.phase == Stopping then [ReleaseDevice, FinishShutdown]
    else [EnterShutdown, ReleaseDevice, FinishShutdown]
  }

  /** The steps of `wanted` happen in this order, with anything in between. */
  predicate InOrder(wanted: seq<Event>, es: seq<Event>) {
    wanted == [] || (es != [] && InOrder(if es[0] == wanted[0] then wanted[1..] else wanted, es[1..]))
  }

  function RunFrom(s: State, es: seq<Event>): State
    decreases es
  {
    if es == [] then s else RunFrom(Step(s, es[0]), es[1..])
  }

  lemma {:induction false} RunContinues(es: seq<Event>, more: seq<Event>)
    ensures Run(es + more) == RunFrom(Run(es), more)
    decreases |more|
  {
    hide Step;
    if more == [] {
      assert es + more == es;
    } else {
      var next := es + [more[0]];
      assert es + more == next + more[1..] && next[..|next| - 1] == es;
      RunContinues(next, more[1..]);
    }
  }

  /** A thread is on its way out, or shutdown has begun. */
  predicate Ending(s: State) {
    s.capture == CaptureLeaving || s.reader == ReaderLeaving || s.phase != Idle
  }

  /** No other thread's step undoes a shutdown's progress, and its next step makes it. */
  lemma EndingStep(s: State, e: Event)
    requires Inv(s) && Ending(s)
    ensures Ending(Step(s, e))
    ensures Remaining(Step(s, e)) == Remaining(s)
            || (Remaining(s) != [] && Remaining(Step(s, e)) == Remaining(s)[1..])
    ensures Remaining(s) != [] && e == Remaining(s)[0] ==> Remaining(Step(s, e)) == Remaining(s)[1..]
  {
  }

  lemma {:induction false} SkipFirst(wanted: seq<Event>, es: seq<Event>)
    requires wanted != [] && InOrder(wanted, es)
    ensures InOrder(wanted[1..], es)
    decreases es
  {
    if |wanted| > 1 {
      if es[0] == wanted[0] {
        if es[0] == wanted[1] {
          SkipFirst(wanted[1..], es[1..]);
        }
      } else {
        SkipFirst(wanted, es[1..]);
        if es[0] == wanted[1] {
          SkipFirst(wanted[1..], es[1..]);
        }
      }
    }
  }

  lemma {:induction false} EndingFinishes(s: State, es: seq<Event>)
    requires Inv(s) && Ending(s) && InOrder(Remaining(s), es)
    ensures RunFrom(s, es).phase == Finished
    decreases es
  {
    hide Step, Inv;
    if es != [] {
      var s' := Step(s, es[0]);
      EndingStep(s, es[0]);
      InvStep(s, es[0]);
      if Remaining(s) != [] && Remaining(s') != Remaining(s) && es[0] != Remaining(s)[0] {
        SkipFirst(Remaining(s), es[1..]);
      }
      EndingFinishes(s', es[1..]);
    }
  }

  /** Shutdown always runs to its end: from any reachable state in which a thread is
      on its way out, in any continuation in which the shutdown's own steps happen in
      their order, whatever the other threads, the watchdog and the client do. */
  lemma ShutdownCompletes(es: seq<Event>, more: seq<Event>)
    requires Ending(Run(es)) && InOrder([EnterShutdown, ReleaseDevice, FinishShutdown], more)
    ensures Run(es + more).phase == Finished
    ensures var log := Run(es + more).log; |log| >= 2 && log[0] == ShutDevice && forall i :: 1 <= i < |log| ==> log[i] == ClosePipe
  {
    hide Step, Inv;
    RunKeepsProtocol(es);
    RunContinues(es, more);
    var all := [EnterShutdown, ReleaseDevice, FinishShutdown];
    var s := Run(es);
    assert all[1..] == [ReleaseDevice, FinishShutdown] && all[1..][1..] == [FinishShutdown] && all[1..][1..][1..] == [];
    SkipFirst(all, more);
    SkipFirst(all[1..], more);
    EndingFinishes(s, more);
    RunKeepsProtocol(es + more);
    InvLog(Run(es + more));
  }

  lemma InvLog(s: State)
    requires Inv(s) && s.phase == Finished
    ensures |s.log| >= 2 && s.log[0] == ShutDevice && forall i :: 1 <= i < |s.log| ==> s.log[i] == ClosePipe
  {
  }

  // ---- Completions nobody asked for ----

  /** The client has answered every packet it got. */
  predicate AllAnswered(s: State) {
    s.received >= s.captures
  }

  /** A completion for an open packet is always accepted, also one that overtakes the
      return of the packet's own write; one that nobody asked for is accepted exactly
      when the capture loop has already taken a completion for every packet. */
  lemma AcceptedIff(es: seq<Event>)
    requires Run(es).reader == Reading
    ensures var s := Run(es);
            var accepted := Step(s, ReadComplete).received == s.received + 1;
            && (!AllAnswered(s) ==> accepted)
            && (AllAnswered(s) ==> (accepted <==> s.consumed == s.captures && s.received == s.captures))
            && (!accepted ==> Step(s, ReadComplete).reader == ReaderLeaving)
  {
    RunKeepsProtocol(es);
    hide Run;
  }

  /** So more completions than packets are on record exactly while the buffer holds
      one and no packet is open; and never more than one. */
  lemma SurplusCompletion(es: seq<Event>)
    ensures var s := Run(es);
            && s.received <= s.captures + 1
            && (s.received == s.captures + 1 <==> s.buffered && s.consumed == s.captures)
            && (s.received == s.captures + 1 ==> s.capture != Delivered && s.capture != Waiting)
  {
    RunKeepsProtocol(es);
    hide Run;
  }

  /** A completion before the first packet is accepted, and the packet then counts as
      handled without an answer. */
  lemma UnsolicitedCompletion()
    ensures var s := Run([ReadComplete]);
            s.reader == Reading && s.received == 1 && s.captures == 0
    ensures Run([ReadComplete, ReceivePacket(true), ClientGetsPacket, WriteReturns(true), TakeCompletion, StopTimer]).capture == Receiving
  {
    var more := [ReceivePacket(true), ClientGetsPacket, WriteReturns(true), TakeCompletion, StopTimer];
    assert [ReadComplete][..0] == [];
    assert Run([]) == START;
    assert Run([ReadComplete]) == Step(START, ReadComplete);
    assert [ReadComplete] + more == [ReadComplete, ReceivePacket(true), ClientGetsPacket, WriteReturns(true), TakeCompletion, StopTimer];
    RunContinues([ReadComplete], more);
    hide Run;
    assert more[1..] == [ClientGetsPacket, WriteReturns(true), TakeCompletion, StopTimer];
    assert more[1..][1..] == [WriteReturns(true), TakeCompletion, StopTimer];
    assert more[1..][1..][1..] == [TakeCompletion, StopTimer];
    assert more[1..][1..][1..][1..] == [StopTimer];
    assert more[1..][1..][1..][1..][1..] == [];
    var s1 := Step(Step(Run([ReadComplete]), ReceivePacket(true)), ClientGetsPacket);
    assert RunFrom(Run([ReadComplete]), more) == RunFrom(s1, more[1..][1..]);
    var s2 := Step(Step(s1, WriteReturns(true)), TakeCompletion);
    assert RunFrom(s1, more[1..][1..]) == RunFrom(s2, [StopTimer]);
    assert RunFrom(s2, [StopTimer]) == RunFrom(Step(s2, StopTimer), []);
  }
}
