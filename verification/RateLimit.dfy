/** The handshake limiter: one fixed window per remote key, pruned eagerly, in a
    table of bounded size. */
module RateLimit {
  import opened Sets

  /** One minute, in nanoseconds. */
  const WINDOW := 60_000_000_000

  datatype Window = Window(start: int, count: nat)

  type Table = map<string, Window>

  /** newHandshakeLimiter's default. */
  function Limit(limit: int): (r: nat)
    ensures r >= 1 && (limit > 0 ==> r == limit)
  {
    if limit <= 0 then 120 else limit
  }

  function Pruned(entries: Table, now: int): Table {
    map k | k in entries && now - entries[k].start < WINDOW :: entries[k]
  }

  /** handshakeLimiter.Allow for the key of an address; "" has no key. */
  function Allowed(entries: Table, limit: nat, key: string, now: int): (Table, bool) {
    if key == "" then (entries, false) else
    var live := Pruned(entries, now);
    if key !in live then
      if |live| >= 4096 then (live, false) else (live[key := Window(now, 1)], true)
    else if live[key].count >= limit then (live, false)
    else (live[key := live[key].(count := live[key].count + 1)], true)
  }

  /** Allow behind its pruning, word for word, with its second window test. */
  function Decided(live: Table, limit: nat, key: string, now: int): (Table, bool) {
    if key !in live then
      if |live| >= 4096 then (live, false) else (live[key := Window(now, 1)], true)
    else if now - live[key].start >= WINDOW then (live[key := Window(now, 1)], true)
    else if live[key].count >= limit then (live, false)
    else (live[key := live[key].(count := live[key].count + 1)], true)
  }

  /** Behind the pruning the second window test never succeeds: leaving it out changes
      nothing, for any table, any key and any clock. */
  lemma SecondTestIsDead(entries: Table, limit: nat, key: string, now: int)
    requires key != ""
    ensures Decided(Pruned(entries, now), limit, key, now) == Allowed(entries, limit, key, now)
    ensures key in Pruned(entries, now) ==> now - Pruned(entries, now)[key].start < WINDOW
  {
  }

  class HandshakeLimiter {
    const limit: nat
    var entries: Table

    constructor (limit: int)
      ensures entries == map[] && this.limit == Limit(limit)
    {
      this.limit := Limit(limit);
      entries := map[];
    }

    method Allow(key: string, now: int) returns (ok: bool)
      modifies this
      ensures (entries, ok) == Allowed(old(entries), limit, key, now)
    {
      if key == "" {
        return false;
      }
      SecondTestIsDead(entries, limit, key, now);
      Prune(now);
      ok := Decide(key, now);
    }

    method Prune(now: int)
      modifies this
      ensures entries == Pruned(old(entries), now)
    {
      var keys := entries.Keys;
      while keys != {}
        invariant keys <= old(entries).Keys
        invariant entries == map k | k in old(entries) && (k in keys || now - old(entries)[k].start < WINDOW) :: old(entries)[k]
        decreases keys
      {
        var k :| k in keys;
        keys := keys - {k};
        if now - entries[k].start >= WINDOW {
          entries := entries - {k};
        }
      }
    }

    method Decide(key: string, now: int) returns (ok: bool)
      modifies this
      ensures (entries, ok) == Decided(old(entries), limit, key, now)
    {
      if key !in entries {
        if |entries| >= 4096 {
          return false;
        }
        entries := entries[key := Window(now, 1)];
        return true;
      }
      var state := entries[key];
      if now - state.start >= WINDOW {
        entries := entries[key := Window(now, 1)];
        return true;
      }
      if state.count >= limit {
        return false;
      }
      entries := entries[key := state.(count := state.count + 1)];
      return true;
    }
  }

  // ---- The simple form: one window per key, never pruned, no capacity ----

  /** A key's window if it still covers now. */
  predicate Open(windows: Table, key: string, now: int) {
    key in windows && now - windows[key].start < WINDOW
  }

  function Simple(windows: Table, limit: nat, key: string, now: int): (Table, bool) {
    if key == "" then (windows, false)
    else if !Open(windows, key, now) then (windows[key := Window(now, 1)], true)
    else if windows[key].count >= limit then (windows, false)
    else (windows[key := windows[key].(count := windows[key].count + 1)], true)
  }

  /** No room for a new key. */
  predicate Full(entries: Table, key: string, now: int) {
    key !in Pruned(entries, now) && |Pruned(entries, now)| >= 4096
  }

  // ---- Whole runs ----

  datatype History = History(entries: Table, windows: Table, accepted: seq<(string, int)>)

  /** Simple's windows follow the accepted handshakes only. */
  function Step(h: History, limit: nat, key: string, now: int): History {
    var (entries, ok) := Allowed(h.entries, limit, key, now);
    History(entries,
            if ok then Simple(h.windows, limit, key, now).0 else h.windows,
            if ok then h.accepted + [(key, now)] else h.accepted)
  }

  function Run(limit: nat, calls: seq<(string, int)>): History {
    if calls == [] then History(map[], map[], [])
    else Step(Run(limit, calls[..|calls| - 1]), limit, calls[|calls| - 1].0, calls[|calls| - 1].1)
  }

  /** Callers read the clock before they wait for the lock. A clock is at most d behind
      one that got the lock earlier; with d == 0 the clocks never go back. */
  ghost predicate LateBy(calls: seq<(string, int)>, d: int) {
    forall i, j :: 0 <= i < j < |calls| ==> calls[i].1 - calls[j].1 <= d
  }

  /** Handshakes of one key accepted from lo up to, not including, hi. */
  function Count(log: seq<(string, int)>, key: string, lo: int, hi: int): nat {
    if log == [] then 0 else
    var last := log[|log| - 1];
    Count(log[..|log| - 1], key, lo, hi) + if last.0 == key && lo <= last.1 < hi then 1 else 0
  }

  /** Handshakes of one key accepted in the minute from t. */
  function PerMinute(log: seq<(string, int)>, key: string, t: int): nat {
    Count(log, key, t, t + WINDOW)
  }

  lemma CountSnoc(log: seq<(string, int)>, e: (string, int), key: string, lo: int, hi: int)
    ensures Count(log + [e], key, lo, hi) == Count(log, key, lo, hi) + if e.0 == key && lo <= e.1 < hi then 1 else 0
  {
    assert (log + [e])[..|log|] == log;
  }

  /** entries is what pruning leaves of the windows. */
  ghost predicate Refines(h: History, now: int) {
    && (forall k :: k in h.entries ==> k in h.windows && h.entries[k] == h.windows[k])
    && (forall k :: Open(h.windows, k, now) ==> k in h.entries)
    && |h.entries| <= 4096
  }

  lemma AllowedSize(entries: Table, limit: nat, key: string, now: int)
    requires |entries| <= 4096
    ensures |Allowed(entries, limit, key, now).0| <= 4096
  {
    var live := Pruned(entries, now);
    SubsetSize(live.Keys, entries.Keys);
    MapUpdateSize(live, key, Window(now, 1));
    if key in live {
      var more := live[key := live[key].(count := live[key].count + 1)];
      assert more.Keys == live.Keys && |more| == |more.Keys| && |live| == |live.Keys|;
    }
  }

  /** The limiter decides like the simple form, except that a full table refuses a
      key that has no open window. */
  lemma DecidesLikeSimple(h: History, limit: nat, key: string, now: int)
    requires Refines(h, now) && limit >= 1
    ensures Allowed(h.entries, limit, key, now).1 <==> Simple(h.windows, limit, key, now).1 && !Full(h.entries, key, now)
  {
  }

  lemma RefinesStep(h: History, limit: nat, key: string, now: int)
    requires Refines(h, now) && limit >= 1
    ensures Refines(Step(h, limit, key, now), now)
  {
    AllowedSize(h.entries, limit, key, now);
    var live := Pruned(h.entries, now);
    assert key in live <==> Open(h.windows, key, now);
  }

  lemma RefinesLater(h: History, before: int, now: int)
    requires Refines(h, before) && before <= now
    ensures Refines(h, now)
  {
    forall k | Open(h.windows, k, now) ensures k in h.entries {
      assert Open(h.windows, k, before);
    }
  }

  lemma {:induction false} RunRefines(limit: nat, calls: seq<(string, int)>, now: int)
    requires LateBy(calls, 0) && limit >= 1 && forall i :: 0 <= i < |calls| ==> calls[i].1 <= now
    ensures Refines(Run(limit, calls), now)
  {
    hide Step;
    if calls != [] {
      var before, call := calls[..|calls| - 1], calls[|calls| - 1];
      RunRefines(limit, before, call.1);
      RefinesStep(Run(limit, before), limit, call.0, call.1);
      RefinesLater(Run(limit, calls), call.1, now);
    }
  }

  // ---- The windows of a key ----

  /** The starts of the windows that a run opened for a key. */
  ghost function Starts(limit: nat, calls: seq<(string, int)>, key: string): seq<int> {
    if calls == [] then [] else
    var before, call := calls[..|calls| - 1], calls[|calls| - 1];
    var h := Run(limit, before);
    Starts(limit, before, key) + if call.0 == key && Opens(h, limit, key, call.1) then [call.1] else []
  }

  ghost predicate Opens(h: History, limit: nat, key: string, now: int) {
    Allowed(h.entries, limit, key, now).1 && key !in Pruned(h.entries, now)
  }

  /** The latest clock so far. */
  ghost function Top(calls: seq<(string, int)>): int {
    if calls == [] then 0 else
    var last := calls[|calls| - 1].1;
    if |calls| == 1 || Top(calls[..|calls| - 1]) < last then last else Top(calls[..|calls| - 1])
  }

  lemma {:induction false} TopIsClock(calls: seq<(string, int)>)
    requires calls != []
    ensures exists i :: 0 <= i < |calls| && calls[i].1 == Top(calls)
  {
    var n := |calls| - 1;
    if Top(calls) == calls[n].1 {
    } else {
      TopIsClock(calls[..n]);
      var i :| 0 <= i < n && calls[..n][i].1 == Top(calls[..n]);
      assert calls[i].1 == Top(calls);
    }
  }

  lemma LateByTop(calls: seq<(string, int)>, d: int)
    requires LateBy(calls, d) && |calls| > 1
    ensures Top(calls[..|calls| - 1]) - d <= calls[|calls| - 1].1
  {
    var n := |calls| - 1;
    TopIsClock(calls[..n]);
    var i :| 0 <= i < n && calls[..n][i].1 == Top(calls[..n]);
    assert calls[i].1 - calls[n].1 <= d;
  }

  /** Windows that opened from lo up to, not including, hi. */
  ghost function Within(starts: seq<int>, lo: int, hi: int): nat {
    if starts == [] then 0 else
    Within(starts[..|starts| - 1], lo, hi) + if lo <= starts[|starts| - 1] < hi then 1 else 0
  }

  /** Window i can hold later clocks from lo up to, not including, hi: it is found until
      a minute after its start, and the clock that ended the window before it is a minute
      after that one's start. */
  ghost predicate Reaches(starts: seq<int>, i: nat, lo: int, hi: int, d: nat)
    requires i < |starts|
  {
    lo < starts[i] + 60_000_000_000 && (i == 0 || starts[i - 1] + 60_000_000_000 - d < hi)
  }

  ghost function Reaching(starts: seq<int>, lo: int, hi: int, d: nat): nat {
    if starts == [] then 0 else
    Reaching(starts[..|starts| - 1], lo, hi, d) + if Reaches(starts, |starts| - 1, lo, hi, d) then 1 else 0
  }

  /** Starts are at least g apart. */
  ghost predicate Spaced(starts: seq<int>, g: int) {
    forall i :: 0 <= i < |starts| - 1 ==> starts[i] + g <= starts[i + 1]
  }

  /** What the latest window of a key may have accepted after it opened. */
  ghost function Filled(h: History, limit: nat, key: string): int {
    (if key in h.entries then h.entries[key].count else limit) - 1
  }

  /** A key's latest window, and how late clocks can still meet it. */
  ghost predicate Latest(h: History, limit: nat, d: nat, key: string, starts: seq<int>, top: int) {
    var n := |starts|;
    && (key in h.entries ==> n > 0 && h.entries[key].start == starts[n - 1] && 1 <= h.entries[key].count <= limit)
    && (n > 0 ==> starts[n - 1] <= top)
    && (n > 0 && key !in h.entries ==> starts[n - 1] + 60_000_000_000 <= top)
    && (n > 1 ==> starts[n - 2] + 60_000_000_000 <= top)
    && Spaced(starts, 60_000_000_000 - d)
  }

  /** The windows' handshakes in an interval: every window's first if it opened there,
      and at most limit - 1 later ones of every window that reaches there. */
  ghost function Most(starts: seq<int>, limit: nat, d: nat, filled: int, lo: int, hi: int): int {
    var n := |starts|;
    if n == 0 then 0 else
    Within(starts, lo, hi) + (limit - 1) * Reaching(starts[..n - 1], lo, hi, d) + if Reaches(starts, n - 1, lo, hi, d) then filled else 0
  }

  ghost predicate Covered(h: History, limit: nat, d: nat, key: string, starts: seq<int>) {
    forall lo, hi :: Count(h.accepted, key, lo, hi) <= Most(starts, limit, d, Filled(h, limit, key), lo, hi)
  }

  lemma LatestStep(h: History, limit: nat, d: nat, caller: string, now: int, key: string, starts: seq<int>, top: int, top': int)
    requires limit >= 1 && d < 60_000_000_000 && Latest(h, limit, d, key, starts, top)
    requires starts != [] ==> top - d <= now && top <= top'
    requires now <= top'
    ensures var more := if caller == key && Opens(h, limit, key, now) then [now] else [];
            Latest(Step(h, limit, caller, now), limit, d, key, starts + more, top')
  {
  }

  lemma {:induction false} MostMonotone(starts: seq<int>, limit: nat, d: nat, a: int, b: int, lo: int, hi: int)
    requires a <= b
    ensures Most(starts, limit, d, a, lo, hi) <= Most(starts, limit, d, b, lo, hi)
  {
  }

  /** One more later handshake in the latest window. */
  lemma MostSame(starts: seq<int>, limit: nat, d: nat, filled: int, now: int, lo: int, hi: int)
    requires starts != [] && now < starts[|starts| - 1] + 60_000_000_000
    requires |starts| > 1 ==> starts[|starts| - 2] + 60_000_000_000 - d <= now
    ensures Most(starts, limit, d, filled, lo, hi) + (if lo <= now < hi then 1 else 0) <= Most(starts, limit, d, filled + 1, lo, hi)
  {
  }

  /** The first handshake of a new window. */
  lemma MostNew(starts: seq<int>, limit: nat, d: nat, filled: int, now: int, lo: int, hi: int)
    requires filled <= limit - 1
    ensures Most(starts, limit, d, filled, lo, hi) + (if lo <= now < hi then 1 else 0) <= Most(starts + [now], limit, d, 0, lo, hi)
  {
    assert (starts + [now])[..|starts|] == starts;
    if starts != [] {
      var n := |starts|;
      OneMore(limit - 1, Reaching(starts[..n - 1], lo, hi, d));
    }
  }

  lemma CoveredSame(h: History, limit: nat, d: nat, key: string, now: int, starts: seq<int>, top: int)
    requires limit >= 1 && Latest(h, limit, d, key, starts, top) && Covered(h, limit, d, key, starts)
    requires key in Pruned(h.entries, now) && top - d <= now
    requires Allowed(h.entries, limit, key, now).1
    ensures Covered(Step(h, limit, key, now), limit, d, key, starts)
  {
    hide Count, Most;
    var h' := Step(h, limit, key, now);
    var filled := Filled(h, limit, key);
    assert Filled(h', limit, key) == filled + 1 && h'.accepted == h.accepted + [(key, now)];
    forall lo, hi ensures Count(h'.accepted, key, lo, hi) <= Most(starts, limit, d, filled + 1, lo, hi) {
      CountSnoc(h.accepted, (key, now), key, lo, hi);
      MostSame(starts, limit, d, filled, now, lo, hi);
    }
  }

  lemma CoveredNew(h: History, limit: nat, d: nat, key: string, now: int, starts: seq<int>, top: int)
    requires limit >= 1 && Latest(h, limit, d, key, starts, top) && Covered(h, limit, d, key, starts)
    requires Opens(h, limit, key, now)
    ensures Covered(Step(h, limit, key, now), limit, d, key, starts + [now])
  {
    hide Count, Most;
    var h' := Step(h, limit, key, now);
    assert Filled(h', limit, key) == 0 && h'.accepted == h.accepted + [(key, now)];
    forall lo, hi ensures Count(h'.accepted, key, lo, hi) <= Most(starts + [now], limit, d, 0, lo, hi) {
      CountSnoc(h.accepted, (key, now), key, lo, hi);
      MostNew(starts, limit, d, Filled(h, limit, key), now, lo, hi);
    }
  }

  /** A call of another key, or a refused one. */
  lemma CoveredOther(h: History, limit: nat, d: nat, caller: string, now: int, key: string, starts: seq<int>, top: int)
    requires limit >= 1 && Latest(h, limit, d, key, starts, top) && Covered(h, limit, d, key, starts)
    requires caller != key || !Allowed(h.entries, limit, key, now).1
    ensures Covered(Step(h, limit, caller, now), limit, d, key, starts)
  {
    hide Count, Most;
    var h' := Step(h, limit, caller, now);
    assert Filled(h, limit, key) <= Filled(h', limit, key);
    forall lo, hi ensures Count(h'.accepted, key, lo, hi) <= Most(starts, limit, d, Filled(h', limit, key), lo, hi) {
      CountSnoc(h.accepted, (caller, now), key, lo, hi);
      MostMonotone(starts, limit, d, Filled(h, limit, key), Filled(h', limit, key), lo, hi);
    }
  }

  lemma {:induction false} RunCovered(limit: nat, d: nat, calls: seq<(string, int)>, key: string)
    requires limit >= 1 && d < 60_000_000_000 && LateBy(calls, d)
    ensures Latest(Run(limit, calls), limit, d, key, Starts(limit, calls, key), Top(calls))
    ensures Covered(Run(limit, calls), limit, d, key, Starts(limit, calls, key))
  {
    hide Latest, Covered, Opens, Allowed, Step;
    if calls == [] {
      NothingYet(limit, d, key);
    } else {
      var before, call := calls[..|calls| - 1], calls[|calls| - 1];
      RunCovered(limit, d, before, key);
      var h, starts, top := Run(limit, before), Starts(limit, before, key), Top(before);
      if before != [] {
        LateByTop(calls, d);
      }
      LatestStep(h, limit, d, call.0, call.1, key, starts, top, Top(calls));
      if call.0 == key && Opens(h, limit, key, call.1) {
        CoveredNew(h, limit, d, key, call.1, starts, top);
      } else if call.0 == key && Allowed(h.entries, limit, key, call.1).1 {
        FoundHasStart(h, limit, d, key, call.1, starts, top);
        CoveredSame(h, limit, d, key, call.1, starts, top);
      } else {
        CoveredOther(h, limit, d, call.0, call.1, key, starts, top);
      }
      assert starts + [] == starts;
    }
  }

  lemma NothingYet(limit: nat, d: nat, key: string)
    requires limit >= 1
    ensures Latest(Run(limit, []), limit, d, key, [], 0) && Covered(Run(limit, []), limit, d, key, [])
  {
  }

  lemma FoundHasStart(h: History, limit: nat, d: nat, key: string, now: int, starts: seq<int>, top: int)
    requires Latest(h, limit, d, key, starts, top)
    requires Allowed(h.entries, limit, key, now).1 && !Opens(h, limit, key, now)
    ensures key in Pruned(h.entries, now) && starts != []
  {
  }

  // ---- How many windows a minute can meet ----

  /** Starts that are g apart: of those from lo on, the last is at least g times their
      number, less one, behind lo. */
  lemma {:induction false} WithinSpan(starts: seq<int>, g: nat, lo: int, hi: int)
    requires Spaced(starts, g) && Within(starts, lo, hi) > 0
    ensures (Within(starts, lo, hi) - 1) * g <= starts[|starts| - 1] - lo
  {
    var n := |starts|;
    var before := starts[..n - 1];
    if Within(before, lo, hi) > 0 {
      WithinSpan(before, g, lo, hi);
      assert starts[n - 2] + g <= starts[n - 1];
      OneMore(g, Within(before, lo, hi) - 1);
    }
  }

  lemma {:induction false} WithinMost(starts: seq<int>, g: nat, lo: int, hi: int)
    requires Spaced(starts, g) && g > 0 && lo < hi
    ensures Within(starts, lo, hi) <= 1 + (hi - 1 - lo) / g
  {
    if starts != [] {
      var n := |starts|;
      if lo <= starts[n - 1] < hi {
        WithinSpan(starts, g, lo, hi);
        Divides(Within(starts, lo, hi) - 1, g, hi - 1 - lo);
      } else {
        WithinMost(starts[..n - 1], g, lo, hi);
      }
    }
  }

  lemma Divides(k: nat, g: nat, x: nat)
    requires g > 0
    ensures k * g <= x <==> k <= x / g
  {
    var q, r := x / g, x % g;
    assert x == q * g + r;
    if k <= q {
      assert k * g <= q * g;
    } else {
      assert (q + 1) * g <= k * g;
    }
  }

  lemma {:induction false} ReachingSpan(starts: seq<int>, g: nat, lo: int, hi: int, d: nat)
    requires Spaced(starts, g) && Reaching(starts, lo, hi, d) > 0
    ensures (Reaching(starts, lo, hi, d) - 1) * g <= starts[|starts| - 1] - (lo - 59_999_999_999)
  {
    var n := |starts|;
    var before := starts[..n - 1];
    if Reaching(before, lo, hi, d) > 0 {
      hide Reaches;
      ReachingSpan(before, g, lo, hi, d);
      assert starts[n - 2] + g <= starts[n - 1];
      OneMore(g, Reaching(before, lo, hi, d) - 1);
    }
  }

  /** The windows before one that reaches into the minute from lo. */
  lemma ReachingBefore(starts: seq<int>, g: nat, lo: int, d: nat)
    requires Spaced(starts, g) && starts != [] && Reaches(starts, |starts| - 1, lo, lo + 60_000_000_000, d)
    ensures var r := Reaching(starts[..|starts| - 1], lo, lo + 60_000_000_000, d); r > 0 ==> (r - 1) * g <= 59_999_999_998 + d
  {
    var before := starts[..|starts| - 1];
    if Reaching(before, lo, lo + 60_000_000_000, d) > 0 {
      ReachingSpan(before, g, lo, lo + 60_000_000_000, d);
    }
  }

  lemma {:induction false} ReachingMost(starts: seq<int>, g: nat, lo: int, d: nat)
    requires g > 0 && Spaced(starts, g)
    ensures Reaching(starts, lo, lo + 60_000_000_000, d) <= 2 + (59_999_999_998 + d) / g
  {
    hide Reaches;
    if starts != [] {
      var before := starts[..|starts| - 1];
      var r := Reaching(before, lo, lo + 60_000_000_000, d);
      if !Reaches(starts, |starts| - 1, lo, lo + 60_000_000_000, d) {
        ReachingMost(before, g, lo, d);
      } else if r > 0 {
        ReachingBefore(starts, g, lo, d);
        Divides(r - 1, g, 59_999_999_998 + d);
      }
    }
  }

  /** The greatest number of handshakes of a key that a minute can hold when clocks are
      up to d late. */
  function Greatest(limit: nat, d: nat): int
    requires d < WINDOW
  {
    1 + (WINDOW - 1) / (WINDOW - d) + (limit - 1) * (2 + (WINDOW - 2 + d) / (WINDOW - d))
  }

  ghost predicate HoldsBound(limit: nat, d: nat, bound: int) {
    forall calls, key, t :: LateBy(calls, d) ==> PerMinute(Run(limit, calls).accepted, key, t) <= bound
  }

  lemma MostOfMinute(starts: seq<int>, limit: nat, d: nat, filled: int, t: int)
    requires limit >= 1 && d < 60_000_000_000 && Spaced(starts, 60_000_000_000 - d) && filled <= limit - 1
    ensures Most(starts, limit, d, filled, t, t + 60_000_000_000) <= Greatest(limit, d)
  {
    hide Reaching, Within, Reaches;
    WithinMost(starts, 60_000_000_000 - d, t, t + 60_000_000_000);
    ReachingMost(starts, 60_000_000_000 - d, t, d);
    var r := Reaching(starts, t, t + 60_000_000_000, d);
    Multiplied(limit - 1, r, 2 + (59_999_999_998 + d) / (60_000_000_000 - d));
    if starts != [] {
      ReachingLast(starts, limit, d, filled, t, t + 60_000_000_000);
    }
  }

  lemma Multiplied(k: nat, a: int, b: int)
    requires a <= b
    ensures k * a <= k * b
  {
  }

  lemma ReachingLast(starts: seq<int>, limit: nat, d: nat, filled: int, lo: int, hi: int)
    requires starts != [] && limit >= 1 && filled <= limit - 1
    ensures (limit - 1) * Reaching(starts[..|starts| - 1], lo, hi, d) + (if Reaches(starts, |starts| - 1, lo, hi, d) then filled else 0)
              <= (limit - 1) * Reaching(starts, lo, hi, d)
  {
    hide Reaches;
    OneMore(limit - 1, Reaching(starts[..|starts| - 1], lo, hi, d));
  }

  lemma OneMore(k: int, n: int)
    ensures k * (n + 1) == k * n + k && (n + 1) * k == n * k + k
  {
  }

  lemma FilledBelow(h: History, limit: nat, d: nat, key: string, starts: seq<int>, top: int)
    requires limit >= 1 && Latest(h, limit, d, key, starts, top)
    ensures Filled(h, limit, key) <= limit - 1
    ensures Spaced(starts, 60_000_000_000 - d)
  {
  }

  /** Over any run whose clocks are less than a minute late. */
  lemma LateRunBounded(limit: nat, d: nat, calls: seq<(string, int)>, key: string, t: int)
    requires limit >= 1 && d < WINDOW && LateBy(calls, d)
    ensures PerMinute(Run(limit, calls).accepted, key, t) <= Greatest(limit, d)
  {
    hide Most, Count, Run, Latest, Spaced, LateBy, Starts, Filled, Greatest;
    RunCovered(limit, d, calls, key);
    var h, starts := Run(limit, calls), Starts(limit, calls, key);
    FilledBelow(h, limit, d, key, starts, Top(calls));
    MostOfMinute(starts, limit, d, Filled(h, limit, key), t);
  }

  // ---- Runs that reach it ----

  /** One window of "k": opened at start, filled by calls of one clock, and removed by a
      call of "x" a minute after its start. */
  function Round(limit: nat, start: int, late: int): seq<(string, int)>
    requires limit >= 1
  {
    [("k", start)] + seq(limit - 1, _ => ("k", late)) + [("x", start + WINDOW)]
  }

  /** Rounds g apart whose later clocks lie in the minute from WINDOW on. */
  function Rounds(limit: nat, first: int, g: nat, n: nat): seq<(string, int)>
    requires limit >= 1
  {
    if n == 0 then [] else
    var start := first + (n - 1) * g;
    Rounds(limit, first, g, n - 1) + Round(limit, start, if start < WINDOW then WINDOW else start)
  }

  /** What is known of such runs: the window of "k", the latest clock, and how many of
      its handshakes lie in the minute from WINDOW on. */
  ghost predicate At(limit: nat, calls: seq<(string, int)>, d: nat, top: int, window: set<Window>, n: nat) {
    var h := Run(limit, calls);
    && h.entries.Keys <= {"k", "x"}
    && (if "k" in h.entries then window == {h.entries["k"]} else window == {})
    && Count(h.accepted, "k", 60_000_000_000, 120_000_000_000) == n
    && LateBy(calls, d) && forall i :: 0 <= i < |calls| ==> calls[i].1 <= top
  }

  lemma RunMore(limit: nat, calls: seq<(string, int)>, key: string, now: int)
    ensures Run(limit, calls + [(key, now)]) == Step(Run(limit, calls), limit, key, now)
  {
    assert (calls + [(key, now)])[..|calls|] == calls;
  }

  lemma FewKeys(entries: Table)
    requires entries.Keys <= {"k", "x"}
    ensures |entries| <= 2
  {
    SubsetSize(entries.Keys, {"k", "x"});
  }

  lemma FewLive(entries: Table, now: int)
    requires entries.Keys <= {"k", "x"}
    ensures |Pruned(entries, now)| <= 2
  {
    FewKeys(Pruned(entries, now));
  }

  lemma AtOpen(limit: nat, calls: seq<(string, int)>, d: nat, top: int, n: nat, now: int)
    requires limit >= 1 && At(limit, calls, d, top, {}, n) && (calls != [] ==> top - d <= now) && now <= top
    ensures At(limit, calls + [("k", now)], d, top, {Window(now, 1)}, n + if WINDOW <= now < 2 * WINDOW then 1 else 0)
  {
    hide Run, Count;
    var h := Run(limit, calls);
    RunMore(limit, calls, "k", now);
    FewLive(h.entries, now);
    CountSnoc(h.accepted, ("k", now), "k", 60_000_000_000, 120_000_000_000);
  }

  lemma AtSame(limit: nat, calls: seq<(string, int)>, d: nat, top: int, w: Window, n: nat, now: int)
    requires limit >= 1 && At(limit, calls, d, top, {w}, n) && top - d <= now <= top
    requires now - w.start < WINDOW && w.count < limit && WINDOW <= now < 2 * WINDOW
    ensures At(limit, calls + [("k", now)], d, top, {Window(w.start, w.count + 1)}, n + 1)
  {
    hide Run, Count;
    var h := Run(limit, calls);
    RunMore(limit, calls, "k", now);
    CountSnoc(h.accepted, ("k", now), "k", 60_000_000_000, 120_000_000_000);
    assert w in {w} && h.entries["k"] == w;
  }

  lemma AtDrop(limit: nat, calls: seq<(string, int)>, d: nat, top: int, w: Window, n: nat)
    requires limit >= 1 && At(limit, calls, d, top, {w}, n) && top <= w.start + WINDOW
    ensures At(limit, calls + [("x", w.start + WINDOW)], d, w.start + WINDOW, {}, n)
  {
    hide Run, Count;
    var h := Run(limit, calls);
    var now := w.start + WINDOW;
    RunMore(limit, calls, "x", now);
    CountSnoc(h.accepted, ("x", now), "k", 60_000_000_000, 120_000_000_000);
    assert w in {w} && h.entries["k"] == w;
    assert "k" !in Pruned(h.entries, now);
  }

  lemma {:induction false} AtFill(limit: nat, calls: seq<(string, int)>, d: nat, top: int, w: Window, n: nat, now: int, m: nat)
    requires limit >= 1 && At(limit, calls, d, top, {w}, n) && top - d <= now <= top
    requires now - w.start < WINDOW && w.count + m <= limit && WINDOW <= now < 2 * WINDOW
    ensures At(limit, calls + seq(m, _ => ("k", now)), d, top, {Window(w.start, w.count + m)}, n + m)
  {
    hide At;
    if m == 0 {
      assert calls + seq(m, _ => ("k", now)) == calls;
    } else {
      AtFill(limit, calls, d, top, w, n, now, m - 1);
      AtSame(limit, calls + seq(m - 1, _ => ("k", now)), d, top, Window(w.start, w.count + m - 1), n + m - 1, now);
      assert calls + seq(m - 1, _ => ("k", now)) + [("k", now)] == calls + seq(m, _ => ("k", now));
    }
  }

  lemma AtRaise(limit: nat, calls: seq<(string, int)>, d: nat, top: int, top': int, window: set<Window>, n: nat)
    requires At(limit, calls, d, top, window, n) && top <= top'
    ensures At(limit, calls, d, top', window, n)
  {
  }

  lemma AtRound(limit: nat, calls: seq<(string, int)>, d: nat, top: int, n: nat, start: int)
    requires limit >= 1 && At(limit, calls, d, top, {}, n)
    requires calls != [] ==> top - d <= start && top <= start + WINDOW
    requires 0 < start < 2 * WINDOW
    ensures var late := if start < WINDOW then WINDOW else start;
            At(limit, calls + Round(limit, start, late), d, start + WINDOW, {}, n + (limit - 1) + if WINDOW <= start then 1 else 0)
  {
    hide At;
    var late := if start < WINDOW then WINDOW else start;
    var top1 := if calls == [] || top < start then start else top;
    var top2 := if top1 < late then late else top1;
    var n1 := n + if WINDOW <= start then 1 else 0;
    AtTop(limit, calls, d, top, top1, n);
    AtOpen(limit, calls, d, top1, n, start);
    var c1 := calls + [("k", start)];
    AtRaise(limit, c1, d, top1, top2, {Window(start, 1)}, n1);
    AtFill(limit, c1, d, top2, Window(start, 1), n1, late, limit - 1);
    var c2 := c1 + seq(limit - 1, _ => ("k", late));
    AtDrop(limit, c2, d, top2, Window(start, limit), n1 + limit - 1);
    assert calls + Round(limit, start, late) == c2 + [("x", start + WINDOW)];
  }

  lemma AtTop(limit: nat, calls: seq<(string, int)>, d: nat, top: int, top': int, n: nat)
    requires At(limit, calls, d, top, {}, n) && (calls == [] || top <= top')
    ensures At(limit, calls, d, top', {}, n)
  {
  }

  lemma {:induction false} AtRounds(limit: nat, first: int, g: nat, n: nat, d: nat, outside: nat)
    requires limit >= 1 && g <= WINDOW <= g + d && 0 < first && (n > 0 ==> first + (n - 1) * g < 2 * WINDOW)
    requires first + outside * g >= WINDOW && (outside > 0 ==> first + (outside - 1) * g < WINDOW)
    ensures At(limit, Rounds(limit, first, g, n), d, first + (n - 1) * g + WINDOW, {},
               (limit - 1) * n + if n <= outside then 0 else n - outside)
  {
    hide At;
    if n == 0 {
      AtStart(limit, d, first - g + WINDOW);
    } else {
      var start := first + (n - 1) * g;
      OneMore(g, n - 2);
      OneMore(limit - 1, n - 1);
      assert WINDOW <= start <==> n - 1 >= outside by {
        Ordered(n - 1, outside, g);
      }
      StartPositive(first, n - 1, g);
      AtRounds(limit, first, g, n - 1, d, outside);
      AtRound(limit, Rounds(limit, first, g, n - 1), d, start - g + WINDOW,
              (limit - 1) * (n - 1) + if n - 1 <= outside then 0 else n - 1 - outside, start);
    }
  }

  lemma AtStart(limit: nat, d: nat, top: int)
    ensures At(limit, [], d, top, {}, 0)
  {
  }

  lemma StartPositive(first: int, i: nat, g: nat)
    requires first > 0
    ensures first + i * g > 0
  {
  }

  lemma Ordered(i: nat, a: nat, g: nat)
    ensures i >= a ==> i * g >= a * g
    ensures i < a ==> i * g <= (a - 1) * g
  {
  }

  /** The first of q + 2 rounds that end at the minute's last clock, and how many open before it. */
  lemma Placed(d: nat, g: nat, q: nat, p: nat) returns (first: int, outside: nat)
    requires d < 60_000_000_000 && g == 60_000_000_000 - d
    requires q == (59_999_999_998 + d) / g && p == 59_999_999_999 / g
    ensures 0 < first && first + (q + 1) * g == 119_999_999_999 && outside == q + 1 - p
    ensures first + outside * g >= 60_000_000_000 && (outside > 0 ==> first + (outside - 1) * g < 60_000_000_000)
  {
    Divides(q, g, 59_999_999_998 + d);
    Divides(q + 1, g, 59_999_999_998 + d);
    Divides(p, g, 59_999_999_999);
    Divides(p + 1, g, 59_999_999_999);
    Divides(q + 2, g, 59_999_999_999);
    assert (q + 1) * g == q * g + g && (p + 1) * g == p * g + g && (q + 2) * g == q * g + 2 * g;
    first, outside := 119_999_999_999 - (q + 1) * g, q + 1 - p;
    assert outside * g == (q + 1) * g - p * g && (outside - 1) * g == outside * g - g;
  }

  /** The greatest number is reached, for every limit and every lateness below a minute. */
  lemma GreatestReached(limit: nat, d: nat) returns (calls: seq<(string, int)>)
    requires limit >= 1 && d < WINDOW
    ensures LateBy(calls, d) && PerMinute(Run(limit, calls).accepted, "k", WINDOW) == Greatest(limit, d)
  {
    hide Rounds, Run, Count, LateBy;
    var g := 60_000_000_000 - d;
    var q, p := (59_999_999_998 + d) / g, 59_999_999_999 / g;
    var first, outside := Placed(d, g, q, p);
    AtRounds(limit, first, g, q + 2, d, outside);
    calls := Rounds(limit, first, g, q + 2);
  }

  /** Clocks a minute late and later leave no bound at all. */
  lemma NoneReached(limit: nat, d: nat, n: nat) returns (calls: seq<(string, int)>)
    requires limit >= 1 && d >= WINDOW
    ensures LateBy(calls, d) && PerMinute(Run(limit, calls).accepted, "k", WINDOW) == limit * n
  {
    hide Rounds, Run, Count, LateBy;
    AtRounds(limit, 60_000_000_000, 0, n, d, 0);
    calls := Rounds(limit, 60_000_000_000, 0, n);
    assert (limit - 1) * n + n == limit * n;
  }

  /** A bound on the accepted handshakes of a key in any half-open minute holds for all runs
      whose clocks are up to d late if and only if d is below a minute and the bound is not
      below the greatest number. */
  lemma BoundHoldsIff(limit: nat, d: nat, bound: int)
    requires limit >= 1
    ensures HoldsBound(limit, d, bound) <==> d < WINDOW && Greatest(limit, d) <= bound
  {
    hide Greatest, LateBy, PerMinute;
    if d < WINDOW {
      if Greatest(limit, d) <= bound {
        forall calls, key, t | LateBy(calls, d) ensures PerMinute(Run(limit, calls).accepted, key, t) <= bound {
          LateRunBounded(limit, d, calls, key, t);
        }
      } else {
        var calls := GreatestReached(limit, d);
      }
    } else {
      var n := if bound < 0 then 0 else bound + 1;
      var calls := NoneReached(limit, d, n);
      assert limit * n >= n;
    }
  }

  /** Twice the limit, the bound of fixed windows: with a limit of two or more it holds
      if and only if no clock is late at all; with a limit of one, for clocks that are
      late by no more than half a minute. */
  lemma TwiceLimitIff(limit: nat, d: nat)
    requires limit >= 1
    ensures HoldsBound(limit, d, 2 * limit) <==> if limit == 1 then 2 * d <= WINDOW else d == 0
  {
    BoundHoldsIff(limit, d, 2 * limit);
    hide HoldsBound;
    if d < WINDOW {
      var g := 60_000_000_000 - d;
      Divides(1, g, 59_999_999_999);
      Divides(2, g, 59_999_999_999);
      Divides(1, g, 59_999_999_998 + d);
      var p, q := 59_999_999_999 / g, (59_999_999_998 + d) / g;
      if d == 0 {
        assert p == 0 && q == 0;
      } else {
        assert p >= 1 && q >= 1;
        Multiplied(limit - 1, 3, 2 + q);
      }
    }
  }

  /** With clocks that never go back: the table never exceeds 4096 entries, no window holds
      more than limit handshakes, and no half-open minute, wherever it starts, contains more
      than 2*limit - 1 accepted handshakes of a key. */
  lemma RunBounded(limit: nat, calls: seq<(string, int)>, now: int, key: string, t: int)
    requires LateBy(calls, 0) && limit >= 1 && forall i :: 0 <= i < |calls| ==> calls[i].1 <= now
    ensures var h := Run(limit, calls);
            && |h.entries| <= 4096 && Refines(h, now)
            && (key in h.entries ==> h.entries[key].count <= limit)
            && PerMinute(h.accepted, key, t) <= 2 * limit - 1
  {
    RunRefines(limit, calls, now);
    RunCovered(limit, 0, calls, key);
    LateRunBounded(limit, 0, calls, key, t);
    assert Greatest(limit, 0) == 2 * limit - 1;
  }
}
