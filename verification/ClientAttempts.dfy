/** How many attempts of one exit can be under way at once. */
module ClientAttempts {
  import opened Addresses
  import opened ClientManager

  // ---- The starting flag is history ----

  /** This step starts an attempt for the exit. */
  ghost predicate LaunchesNow(w: World, e: Event, exit: string) {
    e.Ensure? && e.exit == exit && CanLaunch(w.entries, exit, w.done, e.reachable, e.now)
  }

  /** This step makes the exit's entry forget an attempt: any attempt of the exit ends,
      an older one included, or the path is forced down, or the entry goes or is new. */
  ghost predicate ForgetsNow(w: World, e: Event, exit: string) {
    || exit !in w.entries
    || match e
       case Update(next) => exit !in next
       case DialFails(a, _) => a in w.flying && a.exit == exit
       case HandOver(s) => s in w.returned && w.returned[s].exit == exit && !w.closed
       case FailReady(x, _) => x == exit
       case DrainAll => w.closed
       case _ => false
  }

  /** An attempt of the exit has started and nothing made its entry forget it since. */
  ghost predicate Begun(config: Config, es: seq<Event>, exit: string) {
    es != [] &&
    var before, e := es[..|es| - 1], es[|es| - 1];
    var w := Run(config, before);
    LaunchesNow(w, e, exit) || (!ForgetsNow(w, e, exit) && Begun(config, before, exit))
  }

  lemma StartingStep(config: Config, w: World, e: Event, exit: string)
    ensures var w' := Step(config, w, e);
            exit in w'.entries ==>
              w'.entries[exit].starting == (LaunchesNow(w, e, exit) || (!ForgetsNow(w, e, exit) && w.entries[exit].starting))
  {
    if e.Update? || e.Ensure? || e.DrainAll? {
      StartingTable(config, w, e, exit);
      hide Step, LaunchesNow, ForgetsNow;
    } else {
      hide SetDelay, Assignments, Inventory, Dropped, Launched;
    }
  }

  lemma StartingTable(config: Config, w: World, e: Event, exit: string)
    requires e.Update? || e.Ensure? || e.DrainAll?
    ensures var w' := Step(config, w, e);
            exit in w'.entries ==>
              w'.entries[exit].starting == (LaunchesNow(w, e, exit) || (!ForgetsNow(w, e, exit) && w.entries[exit].starting))
  {
    hide SetDelay, Assignments, Dropped, Installed, FailedReady;
  }

  /** The exit keeps its entry, unless it leaves the inventory or the table is drained. */
  lemma EntryStays(config: Config, w: World, e: Event, exit: string)
    requires exit in w.entries && !(e.Update? && exit !in e.next) && !(e.DrainAll? && w.closed)
    ensures exit in Step(config, w, e).entries
  {
    hide SetDelay, Assignments, Dropped, CanInstall;
  }

  lemma {:induction false} StartingIsBegun(config: Config, es: seq<Event>, exit: string)
    ensures exit in Run(config, es).entries ==> Run(config, es).entries[exit].starting == Begun(config, es, exit)
  {
    hide Step, LaunchesNow, ForgetsNow;
    if es != [] {
      StartingIsBegun(config, es[..|es| - 1], exit);
      StartingStep(config, Run(config, es[..|es| - 1]), es[|es| - 1], exit);
      KnownExit(Run(config, es[..|es| - 1]), es[|es| - 1], exit);
    }
  }

  lemma KnownExit(w: World, e: Event, exit: string)
    ensures !ForgetsNow(w, e, exit) ==> exit in w.entries
  {
  }

  /** Apart from cooldown, path and open session, which the call itself can see: an exit is
      dialled if and only if its ticket is untried since it was assigned and no attempt has
      begun that was not forgotten. */
  lemma LaunchIff(config: Config, es: seq<Event>, exit: string, reachable: bool, now: int)
    requires exit in Run(config, es).entries
    ensures var w := Run(config, es);
            var e := w.entries[exit];
            CanLaunch(w.entries, exit, w.done, reachable, now) <==>
              && !Begun(config, es, exit) && Untried(w.acts, exit, e.ticketHash)
              && now >= e.cooldownUntil && e.public.Usable(now) && Gone(e, w.done) && reachable
  {
    StartingIsBegun(config, es, exit);
    FlagRun(config, es, exit);
    hide Run, Begun, Untried;
  }

  // ---- Attempts under way ----

  /** The attempt is dialling, or its session is not handed over yet. */
  ghost predicate InFlight(w: World, a: Attempt) {
    a in w.flying || exists s :: s in w.returned && w.returned[s] == a
  }

  ghost predicate Busy(w: World, exit: string) {
    exists a :: InFlight(w, a) && a.exit == exit
  }

  ghost predicate AtMostOne(w: World, exit: string) {
    forall a, b :: InFlight(w, a) && InFlight(w, b) && a.exit == exit && b.exit == exit ==> a == b
  }

  predicate Starting(w: World, exit: string) {
    exit in w.entries && w.entries[exit].starting
  }

  /** Attempts have their own numbers, and each is in one place. */
  ghost predicate Numbered(w: World) {
    && (forall a :: a in w.flying ==> a.id < w.nextId)
    && (forall s :: s in w.returned ==> s < w.nextId && w.returned[s].id < w.nextId && w.returned[s] !in w.flying)
    && (forall s, t :: s in w.returned && t in w.returned && w.returned[s] == w.returned[t] ==> s == t)
  }

  lemma NumberedStep(config: Config, w: World, e: Event)
    requires Numbered(w)
    ensures Numbered(Step(config, w, e))
  {
    hide SetDelay, Assignments, Inventory, Dropped, Launched, Installed, CanInstall, FailedReady, CanLaunch;
  }

  lemma {:induction false} NumberedRun(config: Config, es: seq<Event>)
    ensures Numbered(Run(config, es))
  {
    hide Step;
    if es != [] {
      NumberedRun(config, es[..|es| - 1]);
      NumberedStep(config, Run(config, es[..|es| - 1]), es[|es| - 1]);
    }
  }

  /** At most one attempt, and the entry knows of it. */
  ghost predicate Guarded(w: World, exit: string) {
    AtMostOne(w, exit) && (Busy(w, exit) ==> Starting(w, exit))
  }

  /** This step takes the entry's knowledge of an attempt away while that is under way:
      the exit leaves the inventory, is forced down, or the table is drained. */
  ghost predicate Disturbs(w: World, e: Event, exit: string) {
    Busy(w, exit) &&
    match e
    case Update(next) => exit !in next
    case FailReady(x, _) => x == exit
    case DrainAll => w.closed
    case _ => false
  }

  /** The attempt ends with this step. */
  ghost predicate Over(w: World, e: Event, a: Attempt) {
    || (e.DialFails? && e.attempt == a && a in w.flying)
    || (e.HandOver? && e.session in w.returned && w.returned[e.session] == a)
  }

  /** The attempt starts with this step. */
  ghost predicate Starts(w: World, e: Event, a: Attempt) {
    LaunchesNow(w, e, a.exit) && a == Attempt(w.nextId, a.exit, w.entries[a.exit].ticketHash)
  }

  lemma FlightStep(config: Config, w: World, e: Event, a: Attempt)
    requires Numbered(w)
    ensures InFlight(Step(config, w, e), a) <==> (InFlight(w, a) && !Over(w, e, a)) || Starts(w, e, a)
  {
    match e
    case DialFails(_, _) => FlightEnds(config, w, e, a);
    case HandOver(_) => FlightEnds(config, w, e, a);
    case DialReturns(_) => FlightReturns(config, w, e, a);
    case _ => FlightOther(config, w, e, a);
  }

  lemma FlightEnds(config: Config, w: World, e: Event, a: Attempt)
    requires Numbered(w) && (e.DialFails? || e.HandOver?)
    ensures InFlight(Step(config, w, e), a) <==> InFlight(w, a) && !Over(w, e, a)
  {
    hide SetDelay, Installed, CanInstall, FinishedFailure;
    var w' := Step(config, w, e);
    if s :| s in w.returned && w.returned[s] == a {
      assert s in w'.returned ==> w'.returned[s] == a;
    }
  }

  lemma FlightReturns(config: Config, w: World, e: Event, a: Attempt)
    requires Numbered(w) && e.DialReturns?
    ensures InFlight(Step(config, w, e), a) <==> InFlight(w, a)
  {
    var w' := Step(config, w, e);
    if e.attempt in w.flying {
      assert w'.returned[w.nextId] == e.attempt;
      if s :| s in w.returned && w.returned[s] == a {
        assert s in w'.returned && w'.returned[s] == a;
      }
      if s :| s in w'.returned && w'.returned[s] == a {
        assert s != w.nextId ==> s in w.returned && w.returned[s] == a;
      }
    }
  }

  lemma FlightOther(config: Config, w: World, e: Event, a: Attempt)
    requires !e.DialFails? && !e.HandOver? && !e.DialReturns?
    ensures InFlight(Step(config, w, e), a) <==> InFlight(w, a) || Starts(w, e, a)
  {
    hide SetDelay, Assignments, Inventory, Dropped, CanLaunch, Launched, FailedReady;
  }

  lemma GuardedStep(config: Config, w: World, e: Event, exit: string)
    requires Numbered(w) && Guarded(w, exit) && !Disturbs(w, e, exit)
    ensures Guarded(Step(config, w, e), exit)
  {
    hide Step, InFlight, Numbered;
    StartingStep(config, w, e, exit);
    var w' := Step(config, w, e);
    forall a ensures InFlight(w', a) <==> (InFlight(w, a) && !Over(w, e, a)) || Starts(w, e, a) {
      FlightStep(config, w, e, a);
    }
    if a :| InFlight(w', a) && a.exit == exit {
      if InFlight(w, a) {
        ForgetsOver(w, e, a);
      }
      EntryStays(config, w, e, exit);
    }
  }

  /** Without a disturbance the entry forgets the attempt only with the attempt's end. */
  lemma ForgetsOver(w: World, e: Event, a: Attempt)
    requires Guarded(w, a.exit) && InFlight(w, a) && !Disturbs(w, e, a.exit)
    ensures a.exit in w.entries && (ForgetsNow(w, e, a.exit) ==> Over(w, e, a))
  {
    assert Busy(w, a.exit);
    match e
    case DialFails(b, _) => assert b in w.flying ==> InFlight(w, b);
    case HandOver(s) => assert s in w.returned ==> InFlight(w, w.returned[s]);
    case _ =>
  }

  /** No step from number `from` on disturbs the exit. */
  ghost predicate Undisturbed(config: Config, es: seq<Event>, from: nat, exit: string) {
    forall i :: from <= i < |es| ==> !Disturbs(Run(config, es[..i]), es[i], exit)
  }

  lemma {:induction false} GuardedRun(config: Config, es: seq<Event>, more: seq<Event>, exit: string)
    requires Guarded(Run(config, es), exit) && Undisturbed(config, es + more, |es|, exit)
    ensures Guarded(Run(config, es + more), exit)
    decreases |more|
  {
    hide Step, Guarded, Disturbs;
    var all := es + more;
    if more == [] {
      assert all == es;
    } else {
      var n := |all| - 1;
      var before := all[..n];
      assert before == es + more[..|more| - 1];
      forall i | |es| <= i < |before| ensures !Disturbs(Run(config, before[..i]), before[i], exit) {
        assert before[..i] == all[..i] && before[i] == all[i];
      }
      GuardedRun(config, es, more[..|more| - 1], exit);
      NumberedRun(config, before);
      GuardedStep(config, Run(config, before), all[n], exit);
    }
  }

  /** In a run that never takes an exit out of the inventory, forces it down or drains the
      table while one of its attempts is under way, it has at most one at any time. */
  lemma OneAtATime(config: Config, es: seq<Event>, exit: string)
    requires Undisturbed(config, es, 0, exit)
    ensures AtMostOne(Run(config, es), exit)
    ensures Busy(Run(config, es), exit) ==> Starting(Run(config, es), exit) && Begun(config, es, exit)
  {
    assert [] + es == es;
    assert Guarded(Run(config, []), exit);
    GuardedRun(config, [], es, exit);
    StartingIsBegun(config, es, exit);
    hide Run, InFlight, Begun;
  }

  /** An older attempt's end can clear the flag of a younger one, and so on: but from a
      state with one attempt, more than one can come about without a further disturbance
      if and only if the entry does not know of that one. */
  lemma SecondAttemptIff(config: Config, es: seq<Event>, exit: string)
    requires AtMostOne(Run(config, es), exit) && Busy(Run(config, es), exit)
    ensures (exists more :: Undisturbed(config, es + more, |es|, exit) && !AtMostOne(Run(config, es + more), exit))
            <==> !Starting(Run(config, es), exit)
    ensures Starting(Run(config, es), exit) <==> exit in Run(config, es).entries && Begun(config, es, exit)
  {
    StartingIsBegun(config, es, exit);
    hide Run, Begun, Busy, AtMostOne, Undisturbed;
    if Starting(Run(config, es), exit) {
      forall more | Undisturbed(config, es + more, |es|, exit) ensures AtMostOne(Run(config, es + more), exit) {
        GuardedRun(config, es, more, exit);
      }
    } else {
      var more := SecondAttempt(config, es, exit);
    }
  }

  /** The exit's session ends, the inventory brings a new ticket, EnsureClient is called. */
  lemma SecondAttempt(config: Config, es: seq<Event>, exit: string) returns (more: seq<Event>)
    requires Busy(Run(config, es), exit) && !Starting(Run(config, es), exit)
    ensures Undisturbed(config, es + more, |es|, exit) && !AtMostOne(Run(config, es + more), exit)
  {
    var w := Run(config, es);
    SessionsOwned(config, es);
    NumberedRun(config, es);
    var s := if exit in w.entries && w.entries[exit].session.Some? then w.entries[exit].session.value else 0;
    var now := if exit in w.entries && w.entries[exit].cooldownUntil > 0 then w.entries[exit].cooldownUntil else 0;
    var hash := if exit in w.entries then w.entries[exit].ticketHash + [0] else [];
    var p := Public(hash, now + 1, true);
    var e1, e2, e3 := Ends(s), Update(map[exit := p]), Ensure(exit, true, now);
    more := [e1, e2, e3];
    RunThree(config, es, e1, e2, e3);
    SecondLaunch(config, w, exit, s, p, now);
    Quiet(config, es, e1, e2, e3, exit);
  }

  lemma SecondLaunch(config: Config, w: World, exit: string, s: Session, p: Public, now: int)
    requires Numbered(w) && Owned(w) && Busy(w, exit) && !Starting(w, exit) && p.Usable(now) && now >= 0
    requires exit in w.entries ==> p.ticketHash != w.entries[exit].ticketHash && now >= w.entries[exit].cooldownUntil
                                   && (w.entries[exit].session.Some? ==> s == w.entries[exit].session.value)
    ensures !AtMostOne(Step(config, Step(config, Step(config, w, Ends(s)), Update(map[exit := p])), Ensure(exit, true, now)), exit)
  {
    hide Step, InFlight;
    var w1 := Step(config, w, Ends(s));
    var w2 := Step(config, w1, Update(map[exit := p]));
    var w3 := Step(config, w2, Ensure(exit, true, now));
    var a :| InFlight(w, a) && a.exit == exit;
    NumberedStep(config, w, Ends(s));
    NumberedStep(config, w1, Update(map[exit := p]));
    FlightStep(config, w, Ends(s), a);
    FlightStep(config, w1, Update(map[exit := p]), a);
    FlightStep(config, w2, Ensure(exit, true, now), a);
    SecondReady(config, w, exit, s, p, now);
    var b := Attempt(w2.nextId, exit, w2.entries[exit].ticketHash);
    FlightStep(config, w2, Ensure(exit, true, now), b);
    NumberedFlight(w2, a);
  }

  lemma NumberedFlight(w: World, a: Attempt)
    requires Numbered(w) && InFlight(w, a)
    ensures a.id < w.nextId
  {
  }

  lemma SecondReady(config: Config, w: World, exit: string, s: Session, p: Public, now: int)
    requires Owned(w) && !Starting(w, exit) && p.Usable(now) && now >= 0
    requires exit in w.entries ==> p.ticketHash != w.entries[exit].ticketHash && now >= w.entries[exit].cooldownUntil
                                   && (w.entries[exit].session.Some? ==> s == w.entries[exit].session.value)
    ensures var w2 := Step(config, Step(config, w, Ends(s)), Update(map[exit := p]));
            LaunchesNow(w2, Ensure(exit, true, now), exit)
  {
    hide SetDelay, Assignments, Changed, Dropped;
  }

  lemma Quiet(config: Config, es: seq<Event>, e1: Event, e2: Event, e3: Event, exit: string)
    requires e1.Ends? && e2.Update? && exit in e2.next && e3.Ensure?
    ensures Undisturbed(config, es + [e1, e2, e3], |es|, exit)
  {
    hide Run;
  }

  // ---- The table is the inventory ----

  /** The paths of the last inventory, unless the table was drained after it. */
  ghost function Offered(config: Config, es: seq<Event>): map<string, Public> {
    if es == [] then map[] else
    var before, e := es[..|es| - 1], es[|es| - 1];
    match e
    case Update(next) => next
    case DrainAll => if Run(config, before).closed then map[] else Offered(config, before)
    case _ => Offered(config, before)
  }

  ghost predicate Mirrors(entries: Entries, offered: map<string, Public>) {
    entries.Keys == offered.Keys
    && forall exit :: exit in entries ==> entries[exit].public == offered[exit] && entries[exit].ticketHash == offered[exit].ticketHash
  }

  lemma MirrorsStep(config: Config, w: World, e: Event, offered: map<string, Public>)
    requires Mirrors(w.entries, offered)
    ensures Mirrors(Step(config, w, e).entries, match e case Update(next) => next case DrainAll => if w.closed then map[] else offered case _ => offered)
  {
    hide SetDelay, Assignments, Dropped, CanInstall, Gone;
    if !e.Update? && !e.DrainAll? {
      MirrorsEntry(config, w, e, offered);
      hide Step;
    }
  }

  /** Steps that keep the set of entries. */
  lemma MirrorsEntry(config: Config, w: World, e: Event, offered: map<string, Public>)
    requires Mirrors(w.entries, offered) && !e.Update? && !e.DrainAll?
    ensures Mirrors(Step(config, w, e).entries, offered)
  {
    SamePaths(config, w, e);
    hide Step;
  }

  ghost predicate SameOffer(a: Entries, b: Entries) {
    a.Keys == b.Keys && forall k :: k in a ==> a[k].public == b[k].public && a[k].ticketHash == b[k].ticketHash
  }

  lemma OfferLaunched(w: World, exit: string, reachable: bool, now: int)
    ensures SameOffer(w.entries, Launched(w.entries, exit, w.done, reachable, now))
  {
    hide CanLaunch, Gone;
  }

  lemma OfferEnded(config: Config, w: World, exit: string, hash: Hash, s: Session, sawClosed: bool, now: int)
    ensures SameOffer(w.entries, FinishedFailure(config, w.entries, exit, hash, now))
    ensures SameOffer(w.entries, Watched(config, w.entries, sawClosed, exit, s, now))
    ensures SameOffer(w.entries, FailedReady(config, w.entries, exit, now))
  {
    hide SetDelay;
  }

  lemma OfferInstalled(w: World, exit: string, hash: Hash, s: Session)
    ensures SameOffer(w.entries, Installed(w.entries, w.closed, exit, hash, s, w.done))
    ensures SameOffer(w.entries, Checked(w.entries, exit, w.done))
  {
    hide CanInstall, Gone;
  }

  lemma SamePaths(config: Config, w: World, e: Event)
    requires !e.Update? && !e.DrainAll?
    ensures SameOffer(w.entries, Step(config, w, e).entries)
  {
    hide Assignments, CanInstall, CanLaunch, Launched, FinishedFailure, Watched, FailedReady, Installed, Checked;
    match e
    case Ensure(exit, reachable, now) => OfferLaunched(w, exit, reachable, now);
    case DialFails(a, now) => OfferEnded(config, w, a.exit, a.hash, 0, false, now);
    case HandOver(s) => if s in w.returned { OfferInstalled(w, w.returned[s].exit, w.returned[s].hash, s); }
    case Watch(exit, s, sawClosed, now) => OfferEnded(config, w, exit, [], s, sawClosed, now);
    case FailReady(exit, now) => OfferEnded(config, w, exit, [], 0, false, now);
    case Check(exit) => OfferInstalled(w, exit, [], 0);
    case _ =>
  }

  /** In every run there is an entry for exactly the exits of the last inventory, with the
      path and the ticket hash that this inventory gave. */
  lemma {:induction false} TableIsInventory(config: Config, es: seq<Event>)
    ensures Mirrors(Run(config, es).entries, Offered(config, es))
  {
    hide Step, Mirrors;
    if es == [] {
      NothingOffered();
    } else {
      TableIsInventory(config, es[..|es| - 1]);
      MirrorsStep(config, Run(config, es[..|es| - 1]), es[|es| - 1], Offered(config, es[..|es| - 1]));
    }
  }

  lemma NothingOffered()
    ensures Mirrors(map[], map[])
  {
  }

  /** A session that is handed over becomes the exit's current one if and only if the manager
      is open, the exit is still offered with the ticket the session was dialled with, and
      no other session of the exit is open; else it is let go to be closed. */
  lemma HandedOverIff(config: Config, es: seq<Event>, s: Session)
    requires s in Run(config, es).returned
    ensures var w, w' := Run(config, es), Step(config, Run(config, es), HandOver(s));
            var a, offered := w.returned[s], Offered(config, es);
            var kept := !w.closed && a.exit in offered && offered[a.exit].ticketHash == a.hash && a.exit in w.entries
                        && (w.entries[a.exit].session == None || w.entries[a.exit].session.value in w.done);
            && (Current(w'.entries, s) <==> kept) && (s in w'.doomed <==> !kept) && s !in w'.returned
            && (kept ==> a.exit in w'.entries && w'.entries[a.exit].session == Some(s)
                         && w'.entries[a.exit].failureCount == 0 && w'.entries[a.exit].cooldownUntil == 0)
  {
    TableIsInventory(config, es);
    SessionsOwned(config, es);
    hide Run, Offered, Accounted;
    HandedOver(config, Run(config, es), s);
    hide Step;
  }

  lemma HandedOver(config: Config, w: World, s: Session)
    requires s in w.returned && Owned(w)
    ensures var w', a := Step(config, w, HandOver(s)), w.returned[s];
            var kept := !w.closed && a.exit in w.entries && w.entries[a.exit].ticketHash == a.hash && Gone(w.entries[a.exit], w.done);
            && (Current(w'.entries, s) <==> kept) && (s in w'.doomed <==> !kept) && s !in w'.returned
            && (kept ==> a.exit in w'.entries && w'.entries[a.exit].session == Some(s)
                         && w'.entries[a.exit].failureCount == 0 && w'.entries[a.exit].cooldownUntil == 0)
  {
    hide SetDelay, Assignments;
    var w', a := Step(config, w, HandOver(s)), w.returned[s];
    if CanInstall(w.entries, w.closed, a.exit, a.hash, w.done) {
      assert w'.entries[a.exit].session == Some(s);
    }
  }
}
