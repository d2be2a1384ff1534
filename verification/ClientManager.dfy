/** The Public Direct client manager: one entry per exit, attempts that run
    outside the lock, and the ownership of the sessions they bring back. */
module ClientManager {
  import opened Addresses
  import opened Bytes

  type Hash = seq<int>
  type Session = nat

  /** The server-authorised path of one exit. `sound` stands for: available, QUIC,
      a ticket and a verified endpoint. */
  datatype Public = Public(ticketHash: Hash, expiresAt: int, sound: bool)
  {
    predicate Usable(now: int) {
      sound && expiresAt > 0 && expiresAt > now
    }
  }

  /** launches counts the attempts started since the ticket hash last changed. */
  datatype Entry = Entry(
    public: Public, ticketHash: Hash, attempted: bool, starting: bool, session: Option<Session>,
    failureCount: nat, cooldownUntil: int, launches: nat)

  type Entries = map<string, Entry>

  datatype Config = Config(cooldown: nat, maxCooldown: nat)

  /** NewClientManager's defaults: 2 s and 30 s, and a maximum no smaller than the
      cooldown. */
  function Configured(cooldown: int, maxCooldown: int): (r: Config)
    ensures 0 < r.cooldown <= r.maxCooldown
    ensures cooldown > 0 ==> r.cooldown == cooldown
    ensures maxCooldown >= cooldown > 0 ==> r.maxCooldown == maxCooldown
  {
    var c := if cooldown <= 0 then 2_000_000_000 else cooldown;
    var m := if maxCooldown <= 0 then 30_000_000_000 else maxCooldown;
    Config(c, if m < c then c else m)
  }

  // ---- Backoff ----

  function Doubled(base: nat, times: nat): nat {
    if times == 0 then base else 2 * Doubled(base, times - 1)
  }

  function Min(a: nat, b: nat): nat {
    if a <= b then a else b
  }

  /** The documented delay after the n-th consecutive failure. */
  function Backoff(config: Config, n: nat): nat
    requires n >= 1
  {
    Min(Doubled(config.cooldown, n - 1), config.maxCooldown)
  }

  lemma {:induction false} DoubledGrows(base: nat, i: nat, j: nat)
    requires i <= j
    ensures Doubled(base, i) <= Doubled(base, j)
  {
    if i < j {
      DoubledGrows(base, i, j - 1);
    }
  }

  /** recordFailureLocked's loop from round i on, in int64. */
  function Rounds(config: Config, delay: int, i: nat, n: nat): int
    decreases n - i
  {
    if i >= n || delay >= config.maxCooldown then delay
    else if Int64(delay * 2) >= config.maxCooldown then config.maxCooldown
    else Rounds(config, Int64(delay * 2), i + 1, n)
  }

  /** The delay the code sets after the n-th consecutive failure. */
  function SetDelay(config: Config, n: nat): int {
    Rounds(config, config.cooldown, 1, n)
  }

  method Delay(config: Config, failureCount: nat) returns (delay: int)
    ensures delay == SetDelay(config, failureCount)
  {
    hide Int64;
    delay := config.cooldown;
    var i := 1;
    while i < failureCount && delay < config.maxCooldown
      invariant Rounds(config, delay, i, failureCount) == SetDelay(config, failureCount)
      decreases failureCount - i
    {
      delay := Int64(delay * 2);
      if delay >= config.maxCooldown {
        delay := config.maxCooldown;
        break;
      }
      i := i + 1;
    }
  }

  lemma Int64Doubles(d: nat)
    ensures d < 0x4000_0000_0000_0000 ==> Int64(d * 2) == d * 2
    ensures 0x4000_0000_0000_0000 <= d < 0x8000_0000_0000_0000 ==> Int64(d * 2) < 0
  {
  }

  /** While the doubled values stay below 2^62 and the maximum, the loop doubles. */
  lemma {:induction false} RoundsDouble(config: Config, j: nat, n: nat)
    requires j < n
    requires forall i :: 0 <= i < j ==> Doubled(config.cooldown, i) < 0x4000_0000_0000_0000
    requires forall i :: 0 <= i <= j ==> Doubled(config.cooldown, i) < config.maxCooldown
    ensures Rounds(config, Doubled(config.cooldown, j), j + 1, n) == SetDelay(config, n)
  {
    if j > 0 {
      RoundsDouble(config, j - 1, n);
      Int64Doubles(Doubled(config.cooldown, j - 1));
      hide Int64;
      assert Doubled(config.cooldown, j) == 2 * Doubled(config.cooldown, j - 1);
    }
  }

  /** Doubling can overflow: some value of 2^62 or more is still below the maximum. */
  ghost predicate Overflows(config: Config, j: nat) {
    0x4000_0000_0000_0000 <= Doubled(config.cooldown, j) < config.maxCooldown
  }

  lemma {:induction false} DelayIsBackoff(config: Config, n: nat, j: nat)
    requires n >= 1 && j < n && 0 < config.cooldown <= config.maxCooldown < 0x8000_0000_0000_0000
    requires forall i :: 0 <= i < n ==> !Overflows(config, i)
    requires forall i :: 0 <= i < j ==> Doubled(config.cooldown, i) < config.maxCooldown
    ensures SetDelay(config, n) == Backoff(config, n)
    decreases n - j
  {
    forall i | 0 <= i < j ensures Doubled(config.cooldown, i) < 0x4000_0000_0000_0000 {
      assert !Overflows(config, i);
    }
    DoubledGrows(config.cooldown, j, n - 1);
    if Doubled(config.cooldown, j) >= config.maxCooldown {
      if j > 0 {
        RoundsDouble(config, j - 1, n);
        Int64Doubles(Doubled(config.cooldown, j - 1));
        hide Int64;
      }
    } else {
      if j + 1 < n {
        DelayIsBackoff(config, n, j + 1);
      } else {
        RoundsDouble(config, j, n);
      }
    }
  }

  /** The first value that overflows makes the next delay negative: the cooldown
      then lies in the past. */
  lemma OverflowIsNegative(config: Config, j: nat)
    requires Overflows(config, j) && config.maxCooldown < 0x8000_0000_0000_0000
    ensures SetDelay(config, j + 2) < 0 < Backoff(config, j + 2)
  {
    forall i | 0 <= i <= j ensures Doubled(config.cooldown, i) < config.maxCooldown {
      DoubledGrows(config.cooldown, i, j);
    }
    forall i | 0 <= i < j ensures Doubled(config.cooldown, i) < 0x4000_0000_0000_0000 {
      DoubledGrows(config.cooldown, i + 1, j);
    }
    RoundsDouble(config, j, j + 2);
    Int64Doubles(Doubled(config.cooldown, j));
    hide Int64;
    assert Doubled(config.cooldown, j + 1) == 2 * Doubled(config.cooldown, j);
  }

  /** The delay is the documented one for every number of failures exactly when no
      doubled value overflows; a maximum up to 2^62 ns, 146 years, guarantees it. */
  lemma DelayIsBackoffIff(config: Config)
    requires 0 < config.cooldown <= config.maxCooldown < 0x8000_0000_0000_0000
    ensures (forall n {:trigger SetDelay(config, n)} :: n >= 1 ==> SetDelay(config, n) == Backoff(config, n))
            <==> forall j :: !Overflows(config, j)
    ensures config.maxCooldown <= 0x4000_0000_0000_0000 ==> forall n {:trigger SetDelay(config, n)} :: n >= 1 ==> SetDelay(config, n) == Backoff(config, n)
  {
    if j :| Overflows(config, j) {
      OverflowIsNegative(config, j);
    } else {
      forall n | n >= 1 ensures SetDelay(config, n) == Backoff(config, n) {
        DelayIsBackoff(config, n, 0);
      }
    }
  }

  /** A configuration that overflows at the second failure. */
  lemma OverflowNegative()
    ensures SetDelay(Config(0x5000_0000_0000_0000, 0x7fff_ffff_ffff_ffff), 2) < 0
  {
    OverflowIsNegative(Config(0x5000_0000_0000_0000, 0x7fff_ffff_ffff_ffff), 0);
  }

  // ---- Locked sections ----

  function Failed(config: Config, e: Entry, now: int): Entry {
    e.(failureCount := e.failureCount + 1, cooldownUntil := now + SetDelay(config, e.failureCount + 1))
  }

  /** A session whose Done channel is closed. */
  predicate Gone(e: Entry, done: set<Session>) {
    e.session.None? || e.session.value in done
  }

  /** UpdateInventory for one exit that stays or appears. */
  function Refreshed(entries: Entries, exit: string, public: Public): Entry {
    var e := if exit in entries then entries[exit] else Entry(public, [], false, false, None, 0, 0, 0);
    if e.ticketHash != public.ticketHash
    then e.(public := public, ticketHash := public.ticketHash, attempted := false, launches := 0)
    else e.(public := public)
  }

  function Inventory(entries: Entries, next: map<string, Public>): Entries {
    map exit | exit in next :: Refreshed(entries, exit, next[exit])
  }

  /** The sessions of the entries that disappear. */
  function Dropped(entries: Entries, next: map<string, Public>): set<Session> {
    set exit | exit in entries && exit !in next && entries[exit].session.Some? :: entries[exit].session.value
  }

  /** EnsureClient may start an attempt. */
  predicate CanLaunch(entries: Entries, exit: string, done: set<Session>, reachable: bool, now: int) {
    && exit in entries
    && var e := entries[exit];
    && !e.starting && !e.attempted && now >= e.cooldownUntil && e.public.Usable(now)
    && Gone(e, done) && reachable
  }

  function Launched(entries: Entries, exit: string, done: set<Session>, reachable: bool, now: int): Entries {
    if exit !in entries then entries else
    var e := entries[exit];
    if CanLaunch(entries, exit, done, reachable, now)
    then entries[exit := e.(session := None, starting := true, attempted := true, launches := e.launches + 1)]
    else if !e.starting && !e.attempted && now >= e.cooldownUntil && e.public.Usable(now) && Gone(e, done)
    then entries[exit := e.(session := None)]
    else entries
  }

  /** finishFailure. */
  function FinishedFailure(config: Config, entries: Entries, exit: string, hash: Hash, now: int): Entries {
    if exit !in entries then entries
    else if entries[exit].ticketHash != hash then entries[exit := entries[exit].(starting := false)]
    else entries[exit := Failed(config, entries[exit].(starting := false), now)]
  }

  /** connect installs the session it brings back. */
  predicate CanInstall(entries: Entries, closed: bool, exit: string, hash: Hash, done: set<Session>) {
    !closed && exit in entries && entries[exit].ticketHash == hash && Gone(entries[exit], done)
  }

  function Installed(entries: Entries, closed: bool, exit: string, hash: Hash, session: Session, done: set<Session>): Entries {
    if closed || exit !in entries then entries
    else if CanInstall(entries, closed, exit, hash, done)
    then entries[exit := entries[exit].(starting := false, session := Some(session), failureCount := 0, cooldownUntil := 0)]
    else entries[exit := entries[exit].(starting := false)]
  }

  /** watchSession after the session ended. */
  function Watched(config: Config, entries: Entries, sawClosed: bool, exit: string, session: Session, now: int): Entries {
    if sawClosed || exit !in entries || entries[exit].session != Some(session) then entries
    else entries[exit := Failed(config, entries[exit].(session := None), now)]
  }

  function FailedReady(config: Config, entries: Entries, exit: string, now: int): Entries {
    if exit !in entries then entries
    else entries[exit := Failed(config, entries[exit].(session := None, starting := false), now)]
  }

  function SessionOf(entries: Entries, exit: string): set<Session> {
    if exit in entries && entries[exit].session.Some? then {entries[exit].session.value} else {}
  }

  /** ReadyForExit and PreferForExit forget a session that is done. */
  function Checked(entries: Entries, exit: string, done: set<Session>): Entries {
    if exit in entries && Gone(entries[exit], done) then entries[exit := entries[exit].(session := None)] else entries
  }

  class Manager {
    const config: Config
    var entries: Entries
    var closed: bool

    constructor (cooldown: int, maxCooldown: int)
      ensures entries == map[] && !closed && config == Configured(cooldown, maxCooldown)
    {
      config := Configured(cooldown, maxCooldown);
      entries, closed := map[], false;
    }

    method UpdateInventory(next: map<string, Public>) returns (closeSessions: set<Session>)
      modifies this`entries
      ensures entries == Inventory(old(entries), next) && closeSessions == Dropped(old(entries), next)
    {
      closeSessions := {};
      ghost var before := entries;
      var exits := entries.Keys;
      while exits != {}
        invariant exits <= before.Keys
        invariant entries == map exit | exit in before && (exit in exits || exit in next) :: before[exit]
        invariant closeSessions == set exit | exit in before && exit !in exits && exit !in next && before[exit].session.Some?
                                   :: before[exit].session.value
        decreases exits
      {
        var exit :| exit in exits;
        exits := exits - {exit};
        if exit !in next {
          if entries[exit].session.Some? {
            closeSessions := closeSessions + {entries[exit].session.value};
          }
          entries := entries - {exit};
        }
      }
      Refresh(next, before);
    }

    /** The second loop of UpdateInventory. */
    method Refresh(next: map<string, Public>, ghost before: Entries)
      requires entries == map exit | exit in before && exit in next :: before[exit]
      modifies this`entries
      ensures entries == Inventory(before, next)
    {
      var exits := next.Keys;
      while exits != {}
        invariant exits <= next.Keys && entries.Keys <= next.Keys
        invariant forall exit :: exit in next && exit !in exits ==> exit in entries && entries[exit] == Refreshed(before, exit, next[exit])
        invariant forall exit :: exit in exits ==> (exit in entries <==> exit in before) && (exit in before ==> entries[exit] == before[exit])
        decreases exits
      {
        var exit :| exit in exits;
        exits := exits - {exit};
        var public := next[exit];
        var e := Entry(public, [], false, false, None, 0, 0, 0);
        if exit in entries {
          e := entries[exit];
        }
        if e.ticketHash != public.ticketHash {
          e := e.(ticketHash := public.ticketHash, attempted := false, launches := 0);
        }
        entries := entries[exit := e.(public := public)];
      }
    }

    method EnsureClient(exit: string, done: set<Session>, reachable: bool, now: int) returns (launched: bool)
      modifies this`entries
      ensures launched <==> CanLaunch(old(entries), exit, done, reachable, now)
      ensures entries == Launched(old(entries), exit, done, reachable, now)
    {
      if exit !in entries {
        return false;
      }
      var e := entries[exit];
      if e.starting || e.attempted || now < e.cooldownUntil || !e.public.Usable(now) {
        return false;
      }
      if e.session.Some? {
        if e.session.value !in done {
          return false;
        }
        e := e.(session := None);
      }
      if !reachable {
        entries := entries[exit := e];
        return false;
      }
      entries := entries[exit := e.(starting := true, attempted := true, launches := e.launches + 1)];
      return true;
    }

    method RecordFailure(e: Entry, now: int) returns (r: Entry)
      ensures r == Failed(config, e, now)
    {
      r := e.(failureCount := e.failureCount + 1);
      var delay := Delay(config, r.failureCount);
      r := r.(cooldownUntil := now + delay);
    }

    method FinishFailure(exit: string, hash: Hash, now: int)
      modifies this`entries
      ensures entries == FinishedFailure(config, old(entries), exit, hash, now)
    {
      if exit in entries {
        if entries[exit].ticketHash != hash {
          entries := entries[exit := entries[exit].(starting := false)];
        } else {
          var e := RecordFailure(entries[exit].(starting := false), now);
          entries := entries[exit := e];
        }
      }
    }

    /** connect's locked section for a session a dial returned. */
    method Connect(exit: string, hash: Hash, session: Session, done: set<Session>) returns (kept: bool)
      modifies this`entries
      ensures kept <==> CanInstall(old(entries), closed, exit, hash, done)
      ensures entries == Installed(old(entries), closed, exit, hash, session, done)
    {
      if closed || exit !in entries {
        return false;
      }
      var e := entries[exit];
      if e.ticketHash != hash {
        entries := entries[exit := e.(starting := false)];
        return false;
      }
      e := e.(starting := false);
      if e.session.Some? && e.session.value !in done {
        entries := entries[exit := e];
        return false;
      }
      entries := entries[exit := e.(session := Some(session), failureCount := 0, cooldownUntil := 0)];
      return true;
    }

    /** watchSession after the session ended; `sawClosed` was read before the lock. */
    method WatchSession(exit: string, session: Session, sawClosed: bool, now: int)
      modifies this`entries
      ensures entries == Watched(config, old(entries), sawClosed, exit, session, now)
    {
      if sawClosed || exit !in entries || entries[exit].session != Some(session) {
        return;
      }
      var e := RecordFailure(entries[exit].(session := None), now);
      entries := entries[exit := e];
    }

    method FailReadyForExit(exit: string, now: int) returns (closeSessions: set<Session>)
      modifies this`entries
      ensures entries == FailedReady(config, old(entries), exit, now) && closeSessions == SessionOf(old(entries), exit)
    {
      closeSessions := {};
      if exit in entries {
        if entries[exit].session.Some? {
          closeSessions := {entries[exit].session.value};
        }
        var e := RecordFailure(entries[exit].(session := None, starting := false), now);
        entries := entries[exit := e];
      }
    }

    /** The locked section of Close. */
    method Drain() returns (closeSessions: set<Session>)
      modifies this`entries
      ensures entries == map[] && closeSessions == Dropped(old(entries), map[])
    {
      closeSessions := set exit | exit in entries && entries[exit].session.Some? :: entries[exit].session.value;
      entries := map[];
    }
  }

  // ---- All interleavings ----

  /** A goroutine between EnsureClient and the end of connect. */
  datatype Attempt = Attempt(id: nat, exit: string, hash: Hash)

  /** What happens to tickets: the inventory assigns one to an exit, an attempt sends
      it there. */
  datatype TicketAct = Assigned(exit: string, hash: Hash) | Sent(exit: string, hash: Hash)

  /** The manager, its goroutines and the sessions: `flying` attempts are dialling,
      `returned` ones hold a session not yet handed over, `doomed` sessions were
      let go under the lock and are about to be closed, `done` ones are closed;
      `dials` says which attempt brought a session. */
  datatype World = World(
    entries: Entries, closed: bool, nextId: nat,
    flying: set<Attempt>, returned: map<Session, Attempt>, doomed: set<Session>, done: set<Session>,
    acts: seq<TicketAct>, dials: map<Session, Attempt>)

  datatype Event =
    | Update(next: map<string, Public>)
    | Ensure(exit: string, reachable: bool, now: int)
    | DialFails(attempt: Attempt, now: int)
    | DialReturns(attempt: Attempt)
    | HandOver(session: Session)
    | Ends(session: Session)
    | Watch(exit: string, session: Session, sawClosed: bool, now: int)
    | FailReady(exit: string, now: int)
    | Check(exit: string)
    | SetClosed
    | DrainAll
    | CloseOne(session: Session)

  /** The exits whose ticket hash an update sets. */
  function Changed(entries: Entries, next: map<string, Public>): set<string> {
    set exit | exit in next && (exit !in entries || entries[exit].ticketHash != next[exit].ticketHash)
  }

  /** One assignment record for each exit in `exits`. */
  ghost function Assignments(exits: set<string>, next: map<string, Public>): seq<TicketAct>
    requires exits <= next.Keys
    decreases exits
  {
    if exits == {} then [] else
    var exit :| exit in exits;
    [Assigned(exit, next[exit].ticketHash)] + Assignments(exits - {exit}, next)
  }

  ghost function Step(config: Config, w: World, e: Event): World {
    match e
    case Update(next) =>
      w.(entries := Inventory(w.entries, next), doomed := w.doomed + Dropped(w.entries, next),
         acts := w.acts + Assignments(Changed(w.entries, next), next))
    case Ensure(exit, reachable, now) =>
      if CanLaunch(w.entries, exit, w.done, reachable, now) then
        w.(entries := Launched(w.entries, exit, w.done, reachable, now), nextId := w.nextId + 1,
           flying := w.flying + {Attempt(w.nextId, exit, w.entries[exit].ticketHash)},
           acts := w.acts + [Sent(exit, w.entries[exit].ticketHash)])
      else w.(entries := Launched(w.entries, exit, w.done, reachable, now))
    case DialFails(a, now) =>
      if a in w.flying then
        w.(flying := w.flying - {a}, entries := FinishedFailure(config, w.entries, a.exit, a.hash, now))
      else w
    case DialReturns(a) =>
      if a in w.flying then
        w.(flying := w.flying - {a}, returned := w.returned[w.nextId := a], dials := w.dials[w.nextId := a], nextId := w.nextId + 1)
      else w
    case HandOver(s) =>
      if s !in w.returned then w else
      var a := w.returned[s];
      var kept := CanInstall(w.entries, w.closed, a.exit, a.hash, w.done);
      w.(returned := w.returned - {s},
         entries := Installed(w.entries, w.closed, a.exit, a.hash, s, w.done),
         doomed := if kept then w.doomed else w.doomed + {s})
    case Ends(s) => if s < w.nextId then w.(done := w.done + {s}) else w
    case Watch(exit, s, sawClosed, now) =>
      if s in w.done then w.(entries := Watched(config, w.entries, sawClosed, exit, s, now)) else w
    case FailReady(exit, now) =>
      w.(entries := FailedReady(config, w.entries, exit, now), doomed := w.doomed + SessionOf(w.entries, exit))
    case Check(exit) => w.(entries := Checked(w.entries, exit, w.done))
    case SetClosed => w.(closed := true)
    case DrainAll => if w.closed then w.(entries := map[], doomed := w.doomed + Dropped(w.entries, map[])) else w
    case CloseOne(s) => if s in w.doomed then w.(doomed := w.doomed - {s}, done := w.done + {s}) else w
  }

  const START := World(map[], false, 0, {}, map[], {}, {}, [], map[])

  ghost function Run(config: Config, es: seq<Event>): World {
    if es == [] then START else Step(config, Run(config, es[..|es| - 1]), es[|es| - 1])
  }

  predicate Current(entries: Entries, s: Session) {
    exists exit :: exit in entries && entries[exit].session == Some(s)
  }

  /** Ownership: a session has at most one entry, an unhanded session has none and
      is not doomed, an entry's session is not doomed, numbers are not reused. */
  ghost predicate Owned(w: World) {
    && (forall j, k ::
          j in w.entries && k in w.entries && w.entries[j].session.Some? && w.entries[j].session == w.entries[k].session ==>
          j == k)
    && (forall k :: k in w.entries && w.entries[k].session.Some? ==>
          w.entries[k].session.value < w.nextId
          && w.entries[k].session.value !in w.doomed && w.entries[k].session.value !in w.returned)
    && (forall s :: s in w.returned ==> s < w.nextId && s !in w.doomed)
    && (forall s :: s in w.doomed ==> s < w.nextId)
  }

  /** Every session handed over is installed, doomed or closed: nothing leaks. */
  ghost predicate Accounted(w: World, handed: set<Session>) {
    forall s :: s in handed ==> s < w.nextId && s !in w.returned && (s in w.done || s in w.doomed || Current(w.entries, s))
  }

  lemma OwnedUpdate(config: Config, w: World, next: map<string, Public>)
    requires Owned(w)
    ensures Owned(Step(config, w, Update(next)))
  {
    hide SetDelay, Assignments;
    var after := Inventory(w.entries, next);
    forall exit | exit in after && after[exit].session.Some?
      ensures exit in w.entries && w.entries[exit].session == after[exit].session
    {
    }
  }

  lemma OwnedFailReady(config: Config, w: World, exit: string, now: int)
    requires Owned(w)
    ensures Owned(Step(config, w, FailReady(exit, now)))
  {
    hide SetDelay, Assignments;
  }

  lemma OwnedDrain(config: Config, w: World)
    requires Owned(w)
    ensures Owned(Step(config, w, DrainAll))
  {
    hide SetDelay, Assignments;
  }

  lemma OwnedHandOver(config: Config, w: World, s: Session)
    requires Owned(w)
    ensures Owned(Step(config, w, HandOver(s)))
  {
    hide SetDelay, Assignments;
  }

  lemma OwnedDial(config: Config, w: World, e: Event)
    requires Owned(w) && (e.DialFails? || e.DialReturns?)
    ensures Owned(Step(config, w, e))
  {
    hide SetDelay, Assignments;
  }

  lemma OwnedEnsure(config: Config, w: World, e: Event)
    requires Owned(w) && e.Ensure?
    ensures Owned(Step(config, w, e))
  {
    hide SetDelay, Assignments;
  }

  lemma OwnedQuiet(config: Config, w: World, e: Event)
    requires Owned(w) && (e.Ends? || e.Watch? || e.Check? || e.SetClosed? || e.CloseOne?)
    ensures Owned(Step(config, w, e))
  {
    hide SetDelay, Assignments;
  }

  lemma OwnedStep(config: Config, w: World, e: Event)
    requires Owned(w)
    ensures Owned(Step(config, w, e))
  {
    hide Step, Owned;
    match e
    case FailReady(exit, now) => OwnedFailReady(config, w, exit, now);
    case DrainAll => OwnedDrain(config, w);
    case Update(next) => OwnedUpdate(config, w, next);
    case HandOver(s) => OwnedHandOver(config, w, s);
    case DialFails(_, _) => OwnedDial(config, w, e);
    case DialReturns(_) => OwnedDial(config, w, e);
    case Ensure(_, _, _) => OwnedEnsure(config, w, e);
    case _ => OwnedQuiet(config, w, e);
  }

  /** The sessions a run has handed over to the manager. */
  ghost function Handed(config: Config, es: seq<Event>): set<Session> {
    if es == [] then {} else
    var before, e := es[..|es| - 1], es[|es| - 1];
    Handed(config, before) + if e.HandOver? && e.session in Run(config, before).returned then {e.session} else {}
  }

  lemma AccountedStep(config: Config, w: World, e: Event, handed: set<Session>)
    requires Owned(w) && Accounted(w, handed)
    ensures Accounted(Step(config, w, e), handed + if e.HandOver? && e.session in w.returned then {e.session} else {})
  {
    hide Step, Owned, Accounted;
    if e.HandOver? && e.session in w.returned {
      AccountedHandOver(config, w, e.session, handed);
    } else {
      assert handed + {} == handed;
      AccountedOther(config, w, e, handed);
    }
  }

  lemma AccountedHandOver(config: Config, w: World, s: Session, handed: set<Session>)
    requires Owned(w) && Accounted(w, handed) && s in w.returned
    ensures Accounted(Step(config, w, HandOver(s)), handed + {s})
  {
    hide SetDelay, Assignments;
    var w' := Step(config, w, HandOver(s));
    forall kept | kept in handed && Current(w.entries, kept)
      ensures kept in w'.done || kept in w'.doomed || Current(w'.entries, kept)
    {
      var exit :| exit in w.entries && w.entries[exit].session == Some(kept);
      assert exit in w'.entries && w'.entries[exit].session == Some(kept) ==> Current(w'.entries, kept);
    }
    var a := w.returned[s];
    assert CanInstall(w.entries, w.closed, a.exit, a.hash, w.done) ==> w'.entries[a.exit].session == Some(s);
  }

  lemma AccountedOther(config: Config, w: World, e: Event, handed: set<Session>)
    requires Owned(w) && Accounted(w, handed) && !(e.HandOver? && e.session in w.returned)
    ensures Accounted(Step(config, w, e), handed)
  {
    NumbersStay(config, w, e);
    forall s | s in handed && Current(w.entries, s)
      ensures var w' := Step(config, w, e); s in w'.done || s in w'.doomed || Current(w'.entries, s)
    {
      var exit :| exit in w.entries && w.entries[exit].session == Some(s);
      CurrentStays(config, w, e, exit);
      hide Step;
    }
    hide Step, Owned;
  }

  /** A current session stays current, or is done or let go. */
  lemma CurrentStays(config: Config, w: World, e: Event, exit: string)
    requires exit in w.entries && w.entries[exit].session.Some? && !(e.HandOver? && e.session in w.returned)
    ensures var w', s := Step(config, w, e), w.entries[exit].session.value;
            s in w'.done || s in w'.doomed || (exit in w'.entries && w'.entries[exit].session == Some(s))
  {
    hide SetDelay, Assignments, Installed, CanInstall;
  }

  lemma NumbersStay(config: Config, w: World, e: Event)
    requires Owned(w) && !(e.HandOver? && e.session in w.returned)
    ensures var w' := Step(config, w, e);
            && w.nextId <= w'.nextId && w.done <= w'.done && w.doomed <= w'.doomed + w'.done
            && forall s :: s in w'.returned ==> s in w.returned || s >= w.nextId
  {
    hide SetDelay, Assignments, Inventory, Dropped, Launched, Installed, CanInstall, FailedReady, CanLaunch;
  }

  /** Over all interleavings: a session that was dialled and handed over is open
      only as the current session of exactly one entry, or for the moment between
      being let go under the lock and being closed. */
  lemma {:induction false} SessionsOwned(config: Config, es: seq<Event>)
    ensures var w := Run(config, es);
            && Owned(w) && Accounted(w, Handed(config, es))
            && forall s :: s in Handed(config, es) && s !in w.done && s !in w.doomed ==>
                 exists exit :: exit in w.entries && w.entries[exit].session == Some(s)
                                && forall k :: k in w.entries && w.entries[k].session == Some(s) ==> k == exit
  {
    hide Step;
    if es != [] {
      var before, e := es[..|es| - 1], es[|es| - 1];
      SessionsOwned(config, before);
      OwnedStep(config, Run(config, before), e);
      AccountedStep(config, Run(config, before), e, Handed(config, before));
    }
    var w := Run(config, es);
    forall s | s in Handed(config, es) && s !in w.done && s !in w.doomed
      ensures exists exit :: exit in w.entries && w.entries[exit].session == Some(s)
                             && forall k :: k in w.entries && w.entries[k].session == Some(s) ==> k == exit
    {
      var exit :| exit in w.entries && w.entries[exit].session == Some(s);
    }
  }

  /** The ticket hash an exit's entry had when its current session was installed,
      read off the states around the step that made the session current. */
  ghost function HashAtInstall(config: Config, es: seq<Event>, exit: string): Hash {
    if es == [] then [] else
    var w, w' := Run(config, es[..|es| - 1]), Run(config, es);
    if exit in w'.entries && w'.entries[exit].session.Some? && exit in w.entries
       && w.entries[exit].session != w'.entries[exit].session
    then w.entries[exit].ticketHash else HashAtInstall(config, es[..|es| - 1], exit)
  }

  /** Sessions not handed over yet were dialled as recorded. */
  ghost predicate Dialled(w: World) {
    forall s :: s in w.returned ==> s in w.dials && w.dials[s] == w.returned[s] && s < w.nextId
  }

  lemma DialledStep(config: Config, w: World, e: Event)
    requires Dialled(w)
    ensures Dialled(Step(config, w, e))
    ensures forall s :: s in w.dials && s < w.nextId ==> s in Step(config, w, e).dials && Step(config, w, e).dials[s] == w.dials[s]
  {
    hide SetDelay, Assignments, Inventory, Dropped, Launched, Installed, FailedReady;
  }

  /** A step that changes an exit's session to a new one is an install by an attempt
      for this exit and the entry's ticket hash. */
  lemma InstallStep(config: Config, w: World, e: Event, exit: string)
    requires Dialled(w) && Owned(w)
    ensures var w' := Step(config, w, e);
            exit in w'.entries && w'.entries[exit].session.Some? ==>
              || (exit in w.entries && w.entries[exit].session == w'.entries[exit].session)
              || (exit in w.entries && w'.entries[exit].session.value in w'.dials
                  && w'.dials[w'.entries[exit].session.value].exit == exit
                  && w'.dials[w'.entries[exit].session.value].hash == w.entries[exit].ticketHash)
  {
    if !e.HandOver? {
      NoInstall(config, w, e, exit);
      hide Step, Owned, Dialled;
    }
  }

  lemma NoInstall(config: Config, w: World, e: Event, exit: string)
    requires !e.HandOver?
    ensures var w' := Step(config, w, e);
            exit in w'.entries && w'.entries[exit].session.Some? ==>
              exit in w.entries && w.entries[exit].session == w'.entries[exit].session
  {
    hide SetDelay, Assignments, Dropped;
  }

  /** In every run an entry's current session was dialled for this exit, with the
      ticket whose hash the entry had at the install. */
  lemma {:induction false} InstalledForItsTicket(config: Config, es: seq<Event>, exit: string)
    ensures Dialled(Run(config, es))
    ensures var w := Run(config, es);
            exit in w.entries && w.entries[exit].session.Some? ==>
              var s := w.entries[exit].session.value;
              s in w.dials && w.dials[s].exit == exit && w.dials[s].hash == HashAtInstall(config, es, exit)
  {
    hide Step, Owned, Dialled;
    if es == [] {
      NothingDialled();
    } else {
      var before, e := es[..|es| - 1], es[|es| - 1];
      InstalledForItsTicket(config, before, exit);
      SessionsOwned(config, before);
      var w := Run(config, before);
      DialledStep(config, w, e);
      InstallStep(config, w, e, exit);
      OldSession(w, exit);
    }
  }

  lemma NothingDialled()
    ensures Dialled(START)
  {
  }

  lemma OldSession(w: World, exit: string)
    requires Owned(w)
    ensures exit in w.entries && w.entries[exit].session.Some? ==> w.entries[exit].session.value < w.nextId
  {
  }

  // ---- Consecutive failures ----

  /** This step counts as a failure of the exit. */
  ghost predicate FailsNow(w: World, e: Event, exit: string) {
    exit in w.entries &&
    match e
    case DialFails(a, _) => a in w.flying && a.exit == exit && a.hash == w.entries[exit].ticketHash
    case Watch(x, s, sawClosed, _) => x == exit && s in w.done && !sawClosed && w.entries[exit].session == Some(s)
    case FailReady(x, _) => x == exit
    case _ => false
  }

  /** This step installs a session for the exit. */
  ghost predicate InstallsNow(w: World, e: Event, exit: string) {
    e.HandOver? && e.session in w.returned && w.returned[e.session].exit == exit
    && CanInstall(w.entries, w.closed, exit, w.returned[e.session].hash, w.done)
  }

  /** The failures of an exit's entry since it was created or last got a session. */
  ghost function Streak(config: Config, es: seq<Event>, exit: string): nat {
    if es == [] then 0 else
    var w, e := Run(config, es[..|es| - 1]), es[|es| - 1];
    if exit !in w.entries || InstallsNow(w, e, exit) then 0
    else if FailsNow(w, e, exit) then Streak(config, es[..|es| - 1], exit) + 1
    else Streak(config, es[..|es| - 1], exit)
  }

  lemma FailureStep(config: Config, w: World, e: Event, exit: string)
    ensures var w' := Step(config, w, e);
            exit in w'.entries ==>
              && w'.entries[exit].failureCount ==
                 (if exit !in w.entries || InstallsNow(w, e, exit) then 0
                  else if FailsNow(w, e, exit) then w.entries[exit].failureCount + 1
                  else w.entries[exit].failureCount)
              && (FailsNow(w, e, exit) ==>
                    w'.entries[exit].cooldownUntil == e.now + SetDelay(config, w'.entries[exit].failureCount))
  {
    hide SetDelay, Assignments, Dropped;
  }

  lemma {:induction false} StreakIsCounted(config: Config, es: seq<Event>, exit: string)
    ensures exit in Run(config, es).entries ==> Run(config, es).entries[exit].failureCount == Streak(config, es, exit)
  {
    hide Step, FailsNow, InstallsNow;
    if es != [] {
      StreakIsCounted(config, es[..|es| - 1], exit);
      FailureStep(config, Run(config, es[..|es| - 1]), es[|es| - 1], exit);
    }
  }

  lemma FailureKeepsEntry(config: Config, w: World, e: Event, exit: string)
    requires FailsNow(w, e, exit)
    ensures exit in Step(config, w, e).entries
  {
    hide SetDelay;
  }

  /** In every run the n-th failure in a row of an exit sets its cooldown to the
      loop's n-th delay, which is min(cooldown*2^(n-1), maxCooldown) when no doubled
      value overflows. */
  lemma NthFailureSetsDelay(config: Config, es: seq<Event>, e: Event, exit: string)
    requires 0 < config.cooldown <= config.maxCooldown < 0x8000_0000_0000_0000
    requires FailsNow(Run(config, es), e, exit)
    ensures var n, w' := Streak(config, es + [e], exit), Run(config, es + [e]);
            && n >= 1 && exit in w'.entries && w'.entries[exit].cooldownUntil - e.now == SetDelay(config, n)
            && ((forall j :: !Overflows(config, j)) ==> w'.entries[exit].cooldownUntil - e.now == Backoff(config, n))
  {
    var all := es + [e];
    assert all[..|all| - 1] == es;
    StreakIsCounted(config, all, exit);
    var w := Run(config, es);
    assert Run(config, all) == Step(config, w, e);
    FailureStep(config, w, e, exit);
    FailureKeepsEntry(config, w, e, exit);
    FailureIsNoInstall(w, e, exit);
    hide Step, Run, Backoff, SetDelay, Overflows, FailsNow, InstallsNow;
    if forall j :: !Overflows(config, j) {
      DelayIsBackoff(config, Streak(config, all, exit), 0);
    }
  }

  lemma FailureIsNoInstall(w: World, e: Event, exit: string)
    requires FailsNow(w, e, exit)
    ensures exit in w.entries && !InstallsNow(w, e, exit)
  {
  }

  // ---- One attempt per ticket ----

  ghost predicate OneLaunch(w: World) {
    forall k :: k in w.entries ==> w.entries[k].launches <= 1 && (w.entries[k].launches == 1 ==> w.entries[k].attempted)
  }

  lemma OneLaunchStep(config: Config, w: World, e: Event)
    requires OneLaunch(w)
    ensures OneLaunch(Step(config, w, e))
  {
    hide SetDelay, Assignments, Dropped;
  }

  /** Between two changes of an entry's ticket hash at most one attempt starts. */
  lemma {:induction false} OneLaunchPerHash(config: Config, es: seq<Event>)
    ensures OneLaunch(Run(config, es))
  {
    hide Step;
    if es != [] {
      OneLaunchPerHash(config, es[..|es| - 1]);
      OneLaunchStep(config, Run(config, es[..|es| - 1]), es[|es| - 1]);
    }
  }

  function Times(acts: seq<TicketAct>, x: TicketAct): nat {
    if acts == [] then 0 else Times(acts[..|acts| - 1], x) + if acts[|acts| - 1] == x then 1 else 0
  }

  lemma {:induction false} TimesConcat(a: seq<TicketAct>, b: seq<TicketAct>, x: TicketAct)
    ensures Times(a + b, x) == Times(a, x) + Times(b, x)
  {
    if b == [] {
      assert a + b == a;
    } else {
      assert (a + b)[..|a + b| - 1] == a + b[..|b| - 1];
      TimesConcat(a, b[..|b| - 1], x);
    }
  }

  /** The last thing that happened to this ticket at this exit was its assignment. */
  predicate Untried(acts: seq<TicketAct>, exit: string, hash: Hash) {
    acts != [] &&
    var last := acts[|acts| - 1];
    if last == Sent(exit, hash) then false
    else if last == Assigned(exit, hash) then true
    else Untried(acts[..|acts| - 1], exit, hash)
  }

  lemma UntriedMore(acts: seq<TicketAct>, act: TicketAct, exit: string, hash: Hash)
    ensures Untried(acts + [act], exit, hash) ==
            if act == Sent(exit, hash) then false else if act == Assigned(exit, hash) then true else Untried(acts, exit, hash)
  {
    assert (acts + [act])[..|acts|] == acts;
  }

  /** An update's assignments: one for each exit it changes. */
  lemma {:induction false} AssignmentActs(acts: seq<TicketAct>, exits: set<string>, next: map<string, Public>, exit: string, hash: Hash)
    requires exits <= next.Keys
    ensures var all := acts + Assignments(exits, next);
            && Untried(all, exit, hash) == ((exit in exits && next[exit].ticketHash == hash) || Untried(acts, exit, hash))
            && Times(all, Sent(exit, hash)) == Times(acts, Sent(exit, hash))
            && Times(all, Assigned(exit, hash)) ==
               Times(acts, Assigned(exit, hash)) + if exit in exits && next[exit].ticketHash == hash then 1 else 0
    decreases exits
  {
    if exits == {} {
      assert acts + Assignments(exits, next) == acts;
    } else {
      var list := Assignments(exits, next);
      var first := list[0].exit;
      var more := acts + [list[0]];
      assert list == [Assigned(first, next[first].ticketHash)] + Assignments(exits - {first}, next);
      assert acts + list == more + Assignments(exits - {first}, next);
      hide Assignments, Untried, Times;
      AssignmentActs(more, exits - {first}, next, exit, hash);
      UntriedMore(acts, list[0], exit, hash);
      TimesMore(acts, list[0], Sent(exit, hash));
      TimesMore(acts, list[0], Assigned(exit, hash));
    }
  }

  lemma TimesMore(acts: seq<TicketAct>, act: TicketAct, x: TicketAct)
    ensures Times(acts + [act], x) == Times(acts, x) + if act == x then 1 else 0
  {
    assert (acts + [act])[..|acts|] == acts;
  }

  /** An entry's flag is the history: attempted unless its ticket is still untried. */
  ghost predicate FlagIsHistory(w: World, exit: string) {
    exit in w.entries ==> w.entries[exit].attempted == !Untried(w.acts, exit, w.entries[exit].ticketHash)
  }

  lemma FlagStep(config: Config, w: World, e: Event, exit: string)
    requires FlagIsHistory(w, exit)
    ensures FlagIsHistory(Step(config, w, e), exit)
  {
    hide SetDelay, Untried, Assignments, Dropped;
    var w' := Step(config, w, e);
    match e
    case Update(next) =>
      if exit in next {
        AssignmentActs(w.acts, Changed(w.entries, next), next, exit, next[exit].ticketHash);
      }
    case Ensure(x, reachable, now) =>
      if CanLaunch(w.entries, x, w.done, reachable, now) && exit in w.entries {
        UntriedMore(w.acts, Sent(x, w.entries[x].ticketHash), exit, w.entries[exit].ticketHash);
      }
    case _ =>
  }

  lemma {:induction false} FlagRun(config: Config, es: seq<Event>, exit: string)
    ensures FlagIsHistory(Run(config, es), exit)
  {
    hide Step;
    if es != [] {
      FlagRun(config, es[..|es| - 1], exit);
      FlagStep(config, Run(config, es[..|es| - 1]), es[|es| - 1], exit);
    }
  }

  /** Nothing but its ticket's history keeps this exit from being dialled now. */
  predicate Ready(w: World, exit: string, now: int) {
    exit in w.entries
    && var e := w.entries[exit];
       !e.starting && now >= e.cooldownUntil && e.public.Usable(now) && Gone(e, w.done)
  }

  /** A ready exit is dialled with its ticket if and only if the ticket was assigned
      to it after it was last sent there, in every run. A ticket sent once is thus
      sent again exactly when the inventory assigns it anew, by bringing it back. */
  lemma SentIffUntried(config: Config, es: seq<Event>, exit: string, now: int)
    requires Ready(Run(config, es), exit, now)
    ensures var w := Run(config, es);
            var w' := Step(config, w, Ensure(exit, true, now));
            && (w'.acts == w.acts + [Sent(exit, w.entries[exit].ticketHash)] <==> Untried(w.acts, exit, w.entries[exit].ticketHash))
            && (w'.acts == w.acts <==> !Untried(w.acts, exit, w.entries[exit].ticketHash))
  {
    FlagRun(config, es, exit);
    var w := Run(config, es);
    hide Run, Untried;
    assert w.acts + [Sent(exit, w.entries[exit].ticketHash)] != w.acts by {
      assert |w.acts + [Sent(exit, w.entries[exit].ticketHash)]| == |w.acts| + 1;
    }
  }

  /** Whatever happened before, taking an exit out of the inventory and bringing it
      back with a usable ticket has the ticket sent by the next EnsureClient; an
      attempt with the same ticket may still be dialling. */
  lemma ReturnSendsAgain(config: Config, es: seq<Event>, exit: string, p: Public, now: int)
    requires p.Usable(now) && now >= 0
    ensures var w := Run(config, es);
            var w1 := Step(config, w, Update(map[]));
            var w2 := Step(config, w1, Update(map[exit := p]));
            var w3 := Step(config, w2, Ensure(exit, true, now));
            && w3.acts == w.acts + [Assigned(exit, p.ticketHash), Sent(exit, p.ticketHash)]
            && w3.flying == w.flying + {Attempt(w.nextId, exit, p.ticketHash)}
            && (forall a :: a in w.flying ==> a.id != w.nextId)
  {
    FlyingNumbered(config, es);
    var w := Run(config, es);
    hide Run, SetDelay;
    var w1 := Step(config, w, Update(map[]));
    assert Changed(w.entries, map[]) == {};
    assert w1.entries == map[] && w1.acts == w.acts && w1.flying == w.flying && w1.nextId == w.nextId;
    var next := map[exit := p];
    assert Changed(w1.entries, next) == {exit};
    OneAssignment(exit, next);
    var w2 := Step(config, w1, Update(next));
    assert w2.entries[exit].attempted == false && w2.entries[exit].ticketHash == p.ticketHash && w2.entries[exit].public == p;
    assert w2.acts == w.acts + [Assigned(exit, p.ticketHash)];
    assert CanLaunch(w2.entries, exit, w2.done, true, now);
    assert w.acts + [Assigned(exit, p.ticketHash)] + [Sent(exit, p.ticketHash)]
           == w.acts + [Assigned(exit, p.ticketHash), Sent(exit, p.ticketHash)];
  }

  lemma OneAssignment(exit: string, next: map<string, Public>)
    requires exit in next
    ensures Assignments({exit}, next) == [Assigned(exit, next[exit].ticketHash)]
  {
    var first := Assignments({exit}, next)[0].exit;
    assert {exit} - {exit} == {};
  }

  lemma {:induction false} FlyingNumbered(config: Config, es: seq<Event>)
    ensures forall a :: a in Run(config, es).flying ==> a.id < Run(config, es).nextId
  {
    hide Step;
    if es != [] {
      FlyingNumbered(config, es[..|es| - 1]);
      FlyingStep(config, Run(config, es[..|es| - 1]), es[|es| - 1]);
    }
  }

  lemma FlyingStep(config: Config, w: World, e: Event)
    ensures var w' := Step(config, w, e);
            w.nextId <= w'.nextId && forall a :: a in w'.flying ==> a in w.flying || (a.id == w.nextId && w.nextId < w'.nextId)
  {
    hide SetDelay, Assignments, Inventory, Dropped, Launched, Installed, CanInstall, FailedReady, CanLaunch;
  }

  /** The sendings of a ticket that its assignments leave room for. */
  ghost predicate LaunchesCovered(w: World, exit: string, hash: Hash) {
    Times(w.acts, Sent(exit, hash))
    + (if exit in w.entries && w.entries[exit].ticketHash == hash && w.entries[exit].launches == 0 then 1 else 0)
    <= Times(w.acts, Assigned(exit, hash))
  }

  lemma CoveredStep(config: Config, w: World, e: Event, exit: string, hash: Hash)
    requires OneLaunch(w) && LaunchesCovered(w, exit, hash)
    ensures LaunchesCovered(Step(config, w, e), exit, hash)
  {
    hide SetDelay, Times, Assignments, Dropped;
    match e
    case Update(next) =>
      AssignmentActs(w.acts, Changed(w.entries, next), next, exit, hash);
    case Ensure(x, reachable, now) =>
      if CanLaunch(w.entries, x, w.done, reachable, now) {
        TimesMore(w.acts, Sent(x, w.entries[x].ticketHash), Sent(exit, hash));
        TimesMore(w.acts, Sent(x, w.entries[x].ticketHash), Assigned(exit, hash));
      }
    case _ =>
  }

  /** So over a run a ticket is sent at most as often as it was assigned. */
  lemma {:induction false} SentAtMostAssigned(config: Config, es: seq<Event>, exit: string, hash: Hash)
    ensures Times(Run(config, es).acts, Sent(exit, hash)) <= Times(Run(config, es).acts, Assigned(exit, hash))
    ensures LaunchesCovered(Run(config, es), exit, hash)
  {
    hide Step;
    if es != [] {
      var before := es[..|es| - 1];
      SentAtMostAssigned(config, before, exit, hash);
      OneLaunchPerHash(config, before);
      CoveredStep(config, Run(config, before), es[|es| - 1], exit, hash);
    }
  }

  /** The run of a ticket that fails, goes and comes back: it is sent twice, although
      it was marked consumed so that it would never be sent again. */
  lemma TicketSentTwice(config: Config, p: Public)
    requires p.Usable(0)
    ensures var there, gone := Update(map["exit" := p]), Update(map[]);
            Run(config, [there, Ensure("exit", true, 0), DialFails(Attempt(0, "exit", p.ticketHash), 0), gone, there, Ensure("exit", true, 0)]).acts
            == [Assigned("exit", p.ticketHash), Sent("exit", p.ticketHash), Assigned("exit", p.ticketHash), Sent("exit", p.ticketHash)]
  {
    hide Run, Step;
    var there, gone, ensure := Update(map["exit" := p]), Update(map[]), Ensure("exit", true, 0);
    var fails := DialFails(Attempt(0, "exit", p.ticketHash), 0);
    FirstSending(config, p);
    var es := [there, ensure, fails];
    ReturnSendsAgain(config, es, "exit", p, 0);
    RunThree(config, es, gone, there, ensure);
    assert es + [gone, there, ensure] == [there, ensure, fails, gone, there, ensure];
  }

  lemma RunThree(config: Config, es: seq<Event>, a: Event, b: Event, c: Event)
    ensures Run(config, es + [a, b, c]) == Step(config, Step(config, Step(config, Run(config, es), a), b), c)
  {
    hide Step;
    var e1, e2, e3 := es + [a], es + [a, b], es + [a, b, c];
    assert e1[..|e1| - 1] == es && e2[..|e2| - 1] == e1 && e3[..|e3| - 1] == e2;
    assert Run(config, e1) == Step(config, Run(config, es), a);
    assert Run(config, e2) == Step(config, Run(config, e1), b);
  }

  lemma FirstSending(config: Config, p: Public)
    requires p.Usable(0)
    ensures var there := Update(map["exit" := p]);
            Run(config, [there, Ensure("exit", true, 0), DialFails(Attempt(0, "exit", p.ticketHash), 0)]).acts
            == [Assigned("exit", p.ticketHash), Sent("exit", p.ticketHash)]
  {
    var there, ensure, fails := Update(map["exit" := p]), Ensure("exit", true, 0), DialFails(Attempt(0, "exit", p.ticketHash), 0);
    RunThree(config, [], there, ensure, fails);
    assert [] + [there, ensure, fails] == [there, ensure, fails];
    assert Run(config, []) == START;
    hide Run, SetDelay;
    OneAssignment("exit", map["exit" := p]);
    assert Changed(START.entries, map["exit" := p]) == {"exit"};
    var w1 := Step(config, START, there);
    assert w1.entries["exit"].attempted == false && w1.entries["exit"].public == p && w1.entries["exit"].ticketHash == p.ticketHash;
    assert CanLaunch(w1.entries, "exit", w1.done, true, 0);
  }
}
