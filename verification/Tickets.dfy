/** Public Direct ticket authentication: signed claims, their time window and the
    replay table. Parsing, signatures and string trimming are parameters. */
module Tickets {
  import opened Bytes
  import opened Addresses
  import opened Sets

  datatype Claims = Claims(
    version: int, issuer: string, client: string, exit: string, policyRevision: int, authorizationRevision: int,
    nonce: string, issuedAt: int, expiresAt: int, capabilities: seq<string>)

  datatype Signed = Signed(claims: Claims, signature: seq<byte>)

  datatype AuthRequest = AuthRequest(version: int, client: string, exit: string, ticket: seq<byte>)

  /** The libraries and constants the authenticator is used with. */
  datatype Env = Env(
    decode: seq<byte> -> Option<Signed>, verify: (Claims, seq<byte>) -> bool, trim: string -> string,
    authVersion: int, ticketVersion: int, proxyCapability: string)

  datatype Identity = Identity(issuer: string, exit: string)

  /** What the optional current validator and the policy check answer. */
  datatype Validator = NoValidator | Refuses | Permits

  datatype AuthError = Unauthorized | TicketExpired | TicketReplay

  type ReplayTable = map<string, int>

  // ---- Time ----

  /** Nanoseconds to seconds, as time.Time.Unix does it. */
  function Unix(now: int): int {
    now / 1_000_000_000
  }

  /** The lifetime as an int64 duration in nanoseconds. */
  function Lifetime(c: Claims): int {
    Int64((c.expiresAt - c.issuedAt) * 1_000_000_000)
  }

  // ---- The checks before the lock ----

  predicate RequestOk(env: Env, self: Identity, request: AuthRequest) {
    && request.version == env.authVersion
    && env.trim(request.client) != "" && env.trim(request.exit) == self.exit
    && 0 < |request.ticket| <= 4096
  }

  predicate ClaimsOk(env: Env, self: Identity, request: AuthRequest, c: Claims) {
    && c.version == env.ticketVersion
    && env.trim(c.issuer) == self.issuer
    && env.trim(c.client) == env.trim(request.client)
    && env.trim(c.exit) == env.trim(request.exit) && c.exit == self.exit
    && c.policyRevision > 0 && c.authorizationRevision > 0
    && 16 <= |c.nonce| <= 64
    && env.proxyCapability in c.capabilities
  }

  function TimeError(c: Claims, now: int): Option<AuthError> {
    if c.issuedAt > Unix(now + 30_000_000_000) || c.expiresAt <= c.issuedAt then Some(Unauthorized)
    else if c.expiresAt <= Unix(now) then Some(TicketExpired)
    else if Lifetime(c) > 300_000_000_000 || c.issuedAt < Unix(now - 330_000_000_000) then Some(Unauthorized)
    else None
  }

  /** The claims of a request that reaches the replay table. */
  function Checked(env: Env, self: Identity, request: AuthRequest, validator: Validator, requirePolicy: bool, now: int)
    : Result<Claims, AuthError>
  {
    if !RequestOk(env, self, request) then Err(Unauthorized)
    else match env.decode(request.ticket)
      case None => Err(Unauthorized)
      case Some(signed) =>
        if !ClaimsOk(env, self, request, signed.claims) then Err(Unauthorized)
        else if |signed.signature| != 64 || !env.verify(signed.claims, signed.signature) then Err(Unauthorized)
        else match TimeError(signed.claims, now)
          case Some(e) => Err(e)
          case None =>
            if validator == Refuses || (validator == NoValidator && requirePolicy) then Err(Unauthorized)
            else Ok(signed.claims)
  }

  // ---- The replay table ----

  function ReplayKey(c: Claims): string {
    c.issuer + [0 as char] + c.nonce
  }

  function Unexpired(replay: ReplayTable, now: int): ReplayTable {
    map k | k in replay && replay[k] > Unix(now) :: replay[k]
  }

  function Admit(replay: ReplayTable, c: Claims, now: int): (ReplayTable, Option<AuthError>) {
    var live := Unexpired(replay, now);
    if ReplayKey(c) in live then (live, Some(TicketReplay))
    else if |live| >= 8192 then (live, Some(Unauthorized))
    else (live[ReplayKey(c) := c.expiresAt], None)
  }

  datatype Call = Call(request: AuthRequest, validator: Validator, requirePolicy: bool, now: int)

  function Authenticated(env: Env, self: Identity, replay: ReplayTable, call: Call): (ReplayTable, Result<Claims, AuthError>) {
    match Checked(env, self, call.request, call.validator, call.requirePolicy, call.now)
    case Err(e) => (replay, Err(e))
    case Ok(c) =>
      var (replay', error) := Admit(replay, c, call.now);
      (replay', if error.Some? then Err(error.value) else Ok(c))
  }

  class TicketAuthenticator {
    const self: Identity
    var replay: ReplayTable

    constructor (self: Identity)
      ensures replay == map[] && this.self == self
    {
      this.self := self;
      replay := map[];
    }

    method Authenticate(env: Env, call: Call) returns (r: Result<Claims, AuthError>)
      modifies this
      ensures (replay, r) == Authenticated(env, self, old(replay), call)
    {
      var client, exit := env.trim(call.request.client), env.trim(call.request.exit);
      if call.request.version != env.authVersion || client == "" || exit != self.exit
         || |call.request.ticket| == 0 || |call.request.ticket| > 4096 {
        return Err(Unauthorized);
      }
      var decoded := env.decode(call.request.ticket);
      if decoded.None? {
        return Err(Unauthorized);
      }
      var claims := decoded.value.claims;
      if !ClaimsOk(env, self, call.request, claims) {
        return Err(Unauthorized);
      }
      if |decoded.value.signature| != 64 || !env.verify(claims, decoded.value.signature) {
        return Err(Unauthorized);
      }
      var time := TimeError(claims, call.now);
      if time.Some? {
        return Err(time.value);
      }
      if call.validator == Refuses || (call.validator == NoValidator && call.requirePolicy) {
        return Err(Unauthorized);
      }
      var error := Remember(claims, call.now);
      return if error.Some? then Err(error.value) else Ok(claims);
    }

    /** ticket_auth.go:151-167, under the lock. */
    method Remember(claims: Claims, now: int) returns (error: Option<AuthError>)
      modifies this
      ensures (replay, error) == Admit(old(replay), claims, now)
    {
      var keys := replay.Keys;
      while keys != {}
        invariant keys <= old(replay).Keys
        invariant replay == map k | k in old(replay) && (k in keys || old(replay)[k] > Unix(now)) :: old(replay)[k]
        decreases keys
      {
        var k :| k in keys;
        keys := keys - {k};
        if replay[k] <= Unix(now) {
          replay := replay - {k};
        }
      }
      assert replay == Unexpired(old(replay), now);
      if ReplayKey(claims) in replay {
        return Some(TicketReplay);
      }
      if |replay| >= 8192 {
        return Some(Unauthorized);
      }
      replay := replay[ReplayKey(claims) := claims.expiresAt];
      return None;
    }
  }

  // ---- Whole runs ----

  datatype History = History(replay: ReplayTable, accepted: seq<(Claims, int)>)

  function Run(env: Env, self: Identity, calls: seq<Call>): History {
    if calls == [] then History(map[], []) else
    var h := Run(env, self, calls[..|calls| - 1]);
    var call := calls[|calls| - 1];
    var (replay, r) := Authenticated(env, self, h.replay, call);
    History(replay, if r.Ok? then h.accepted + [(r.value, call.now)] else h.accepted)
  }

  ghost predicate Clocked(calls: seq<Call>) {
    forall i, j :: 0 <= i < j < |calls| ==> calls[i].now <= calls[j].now
  }

  /** The state after the clock has reached `now`. */
  ghost predicate Inv(h: History, now: int) {
    && |h.replay| <= 8192
    && (forall i :: 0 <= i < |h.accepted| ==> Remembered(h, i, now))
    && (forall i, j :: 0 <= i < j < |h.accepted| ==> h.accepted[i].0 != h.accepted[j].0)
  }

  /** An accepted ticket is expired or stands in the table with its expiry. */
  ghost predicate Remembered(h: History, i: nat, now: int)
    requires i < |h.accepted|
  {
    var c := h.accepted[i].0;
    c.expiresAt <= Unix(now) || (ReplayKey(c) in h.replay && h.replay[ReplayKey(c)] == c.expiresAt)
  }

  lemma AcceptedInTime(env: Env, self: Identity, replay: ReplayTable, call: Call)
    requires Authenticated(env, self, replay, call).1.Ok?
    ensures var c := Authenticated(env, self, replay, call).1.value;
            && TimeError(c, call.now) == None && Admit(replay, c, call.now).1 == None
            && Authenticated(env, self, replay, call).0 == Admit(replay, c, call.now).0
  {
  }

  lemma AdmitSize(replay: ReplayTable, c: Claims, now: int)
    requires |replay| <= 8192
    ensures |Admit(replay, c, now).0| <= 8192
  {
    hide ReplayKey;
    SubsetSize(Unexpired(replay, now).Keys, replay.Keys);
    MapUpdateSize(Unexpired(replay, now), ReplayKey(c), c.expiresAt);
  }

  lemma InvStep(env: Env, self: Identity, h: History, call: Call, before: int)
    requires Inv(h, before) && before <= call.now
    ensures var (replay, r) := Authenticated(env, self, h.replay, call);
            Inv(History(replay, if r.Ok? then h.accepted + [(r.value, call.now)] else h.accepted), call.now)
  {
    hide ReplayKey, RequestOk, ClaimsOk, Lifetime;
    var (replay, r) := Authenticated(env, self, h.replay, call);
    var checked := Checked(env, self, call.request, call.validator, call.requirePolicy, call.now);
    if checked.Ok? {
      AdmitSize(h.replay, checked.value, call.now);
    }
    if r.Ok? {
      AcceptedInTime(env, self, h.replay, call);
    }
    var h' := History(replay, if r.Ok? then h.accepted + [(r.value, call.now)] else h.accepted);
    forall i | 0 <= i < |h'.accepted| ensures Remembered(h', i, call.now) {
      if i < |h.accepted| {
        assert Remembered(h, i, before) && h'.accepted[i] == h.accepted[i];
      }
    }
    if r.Ok? {
      forall i | 0 <= i < |h.accepted| ensures h.accepted[i].0 != r.value {
        assert Remembered(h, i, before);
      }
    }
  }

  /** With a clock that never goes back: no ticket is accepted twice, each accepted
      one that is not expired stands in the replay table, and the table stays
      within its bound. */
  lemma {:induction false} AcceptedOnce(env: Env, self: Identity, calls: seq<Call>, now: int)
    requires Clocked(calls) && forall i :: 0 <= i < |calls| ==> calls[i].now <= now
    ensures Inv(Run(env, self, calls), now)
  {
    hide Authenticated;
    if calls != [] {
      var before, call := calls[..|calls| - 1], calls[|calls| - 1];
      AcceptedOnce(env, self, before, call.now);
      InvStep(env, self, Run(env, self, before), call, call.now);
      InvLater(Run(env, self, calls), call.now, now);
    }
  }

  lemma InvLater(h: History, before: int, now: int)
    requires Inv(h, before) && before <= now
    ensures Inv(h, now)
  {
    hide ReplayKey;
    forall i | 0 <= i < |h.accepted| ensures Remembered(h, i, now) {
      assert Remembered(h, i, before);
    }
  }

  /** Int64 arithmetic leaves a duration alone exactly when it fits. */
  lemma LifetimeFits(c: Claims)
    requires c.expiresAt > c.issuedAt
    ensures (c.expiresAt - c.issuedAt) * 1_000_000_000 < 0x8000_0000_0000_0000 ==>
              Lifetime(c) == (c.expiresAt - c.issuedAt) * 1_000_000_000
  {
  }

  /** The documented five minutes: an accepted ticket expires at most 330 s after
      its acceptance exactly when its lifetime in nanoseconds fits an int64. */
  lemma ExpiryBoundedIffFits(c: Claims, now: int)
    requires TimeError(c, now) == None
    ensures c.expiresAt <= Unix(now) + 330 <==> (c.expiresAt - c.issuedAt) * 1_000_000_000 < 0x8000_0000_0000_0000
  {
    hide Lifetime;
    LifetimeFits(c);
  }

  /** A ticket issued now for 584 years passes the time checks: its lifetime wraps
      round to 0.3 s. */
  lemma OverlongAccepted(c: Claims)
    requires c.issuedAt == 1_700_000_000 && c.expiresAt == c.issuedAt + 18_446_744_074
    ensures TimeError(c, 1_700_000_000 * 1_000_000_000) == None && Lifetime(c) == 290_448_384
  {
  }

  /** The bound on every stored expiry, over whole runs without such lifetimes. */
  lemma {:induction false} StoredExpiryBounded(env: Env, self: Identity, calls: seq<Call>, i: nat)
    requires i < |Run(env, self, calls).accepted|
    requires var c := Run(env, self, calls).accepted[i].0;
             (c.expiresAt - c.issuedAt) * 1_000_000_000 < 0x8000_0000_0000_0000
    ensures var (c, at) := Run(env, self, calls).accepted[i]; Unix(at) < c.expiresAt <= Unix(at) + 330
  {
    hide Authenticated, Lifetime;
    var before, call := calls[..|calls| - 1], calls[|calls| - 1];
    var h := Run(env, self, before);
    if i < |h.accepted| {
      StoredExpiryBounded(env, self, before, i);
    } else {
      AcceptedInTime(env, self, h.replay, call);
      ExpiryBoundedIffFits(Run(env, self, calls).accepted[i].0, call.now);
    }
  }

  // ---- Overlapping calls ----

  /** A call that took the lock: its ticket, the clock it had read before, and what
      came of it. */
  datatype Section = Section(claims: Claims, now: int, error: Option<AuthError>)

  /** Calls that passed their checks wait for the lock, which they get in any order. */
  datatype Threads = Threads(replay: ReplayTable, waiting: map<nat, (Claims, int)>, nextId: nat, sections: seq<Section>)

  datatype ThreadEvent = Enter(call: Call) | Lock(id: nat)

  function ThreadStep(env: Env, self: Identity, t: Threads, e: ThreadEvent): Threads {
    match e
    case Enter(call) =>
      (match Checked(env, self, call.request, call.validator, call.requirePolicy, call.now)
       case Err(_) => t
       case Ok(c) => t.(waiting := t.waiting[t.nextId := (c, call.now)], nextId := t.nextId + 1))
    case Lock(id) =>
      if id !in t.waiting then t else
      var (c, now) := t.waiting[id];
      var (replay, error) := Admit(t.replay, c, now);
      t.(replay := replay, waiting := t.waiting - {id}, sections := t.sections + [Section(c, now, error)])
  }

  function ThreadRun(env: Env, self: Identity, es: seq<ThreadEvent>): Threads {
    if es == [] then Threads(map[], map[], 0, [])
    else ThreadStep(env, self, ThreadRun(env, self, es[..|es| - 1]), es[|es| - 1])
  }

  /** No section after i, up to the n-th, had a clock at or past the ticket's expiry. */
  ghost predicate Kept(sections: seq<Section>, i: nat, n: nat)
    requires i < |sections| && n <= |sections|
  {
    forall k :: i < k < n ==> Unix(sections[k].now) < sections[i].claims.expiresAt
  }

  /** Section i accepted a ticket with this key, and nothing has pruned it since. */
  ghost predicate Guards(sections: seq<Section>, i: nat, key: string)
    requires i < |sections|
  {
    sections[i].error.None? && ReplayKey(sections[i].claims) == key && Kept(sections, i, |sections|)
  }

  ghost predicate TableIs(replay: ReplayTable, sections: seq<Section>) {
    && (forall i :: 0 <= i < |sections| ==> Unix(sections[i].now) < sections[i].claims.expiresAt)
    && (forall i, key :: 0 <= i < |sections| && Guards(sections, i, key) ==> key in replay && replay[key] == sections[i].claims.expiresAt)
    && (forall key :: key in replay ==> exists i :: 0 <= i < |sections| && Guards(sections, i, key))
    && |replay| <= 8192
  }

  lemma GuardsMore(sections: seq<Section>, x: Section, i: nat, key: string)
    requires i < |sections|
    ensures Guards(sections + [x], i, key) <==> Guards(sections, i, key) && Unix(x.now) < sections[i].claims.expiresAt
  {
    hide ReplayKey, Unix;
    var more := sections + [x];
    assert forall k :: 0 <= k < |sections| ==> more[k] == sections[k];
    assert more[|sections|] == x;
  }

  lemma GuardsLast(sections: seq<Section>, x: Section, key: string)
    ensures Guards(sections + [x], |sections|, key) <==> x.error.None? && ReplayKey(x.claims) == key
  {
    assert (sections + [x])[|sections|] == x;
  }

  lemma TableStep(replay: ReplayTable, sections: seq<Section>, c: Claims, now: int)
    requires TableIs(replay, sections) && Unix(now) < c.expiresAt
    ensures var (replay', error) := Admit(replay, c, now);
            TableIs(replay', sections + [Section(c, now, error)])
  {
    hide ReplayKey, Unix, Guards;
    var (replay', error) := Admit(replay, c, now);
    var x := Section(c, now, error);
    var more := sections + [x];
    AdmitSize(replay, c, now);
    forall i, key | 0 <= i < |more| && Guards(more, i, key)
      ensures key in replay' && replay'[key] == more[i].claims.expiresAt
    {
      if i < |sections| {
        GuardsMore(sections, x, i, key);
      } else {
        GuardsLast(sections, x, key);
      }
    }
    forall key | key in replay' ensures exists i :: 0 <= i < |more| && Guards(more, i, key) {
      GuardsLast(sections, x, key);
      if !Guards(more, |sections|, key) {
        var i :| 0 <= i < |sections| && Guards(sections, i, key);
        GuardsMore(sections, x, i, key);
      }
    }
  }

  /** The waiting tickets passed their time checks at the clock they read. */
  ghost predicate WaitInTime(t: Threads) {
    forall id :: id in t.waiting ==> Unix(t.waiting[id].1) < t.waiting[id].0.expiresAt
  }

  /** In every interleaving the replay table holds exactly the accepted tickets that
      no later section, by its own clock, took for expired. */
  lemma {:induction false} TableIsHistory(env: Env, self: Identity, es: seq<ThreadEvent>)
    ensures var t := ThreadRun(env, self, es); TableIs(t.replay, t.sections) && WaitInTime(t)
  {
    hide TableIs, Admit, RequestOk, ClaimsOk, Lifetime;
    if es == [] {
      NoTable();
    } else {
      TableIsHistory(env, self, es[..|es| - 1]);
      var t, e := ThreadRun(env, self, es[..|es| - 1]), es[|es| - 1];
      if e.Lock? && e.id in t.waiting {
        TableStep(t.replay, t.sections, t.waiting[e.id].0, t.waiting[e.id].1);
      }
    }
  }

  lemma NoTable()
    ensures TableIs(map[], [])
  {
  }

  /** What the section at j finds: an accepted ticket with the same key that no
      section up to and including j takes for expired. */
  ghost predicate Found(sections: seq<Section>, j: nat)
    requires j < |sections|
  {
    exists i :: 0 <= i < j && sections[i].error.None?
                && ReplayKey(sections[i].claims) == ReplayKey(sections[j].claims) && Kept(sections, i, j + 1)
  }

  lemma FoundBefore(sections: seq<Section>, x: Section)
    ensures Found(sections + [x], |sections|) <==>
            exists i :: 0 <= i < |sections| && Guards(sections, i, ReplayKey(x.claims)) && Unix(x.now) < sections[i].claims.expiresAt
  {
    hide ReplayKey, Unix;
    var more := sections + [x];
    assert forall k :: 0 <= k < |sections| ==> more[k] == sections[k];
    assert more[|sections|] == x;
    forall i | 0 <= i < |sections|
      ensures Kept(more, i, |sections| + 1) <==> Kept(sections, i, |sections|) && Unix(x.now) < sections[i].claims.expiresAt
    {
    }
    if i :| 0 <= i < |sections| && Guards(sections, i, ReplayKey(x.claims)) && Unix(x.now) < sections[i].claims.expiresAt {
      assert more[i] == sections[i];
    }
  }

  lemma KeptEarlier(sections: seq<Section>, x: Section, i: nat, n: nat)
    requires i < |sections| && n <= |sections|
    ensures Kept(sections + [x], i, n) <==> Kept(sections, i, n)
  {
    hide Unix;
    assert forall k :: 0 <= k < |sections| ==> (sections + [x])[k] == sections[k];
  }

  lemma FoundEarlier(sections: seq<Section>, x: Section, j: nat)
    requires j < |sections|
    ensures Found(sections + [x], j) <==> Found(sections, j)
  {
    hide ReplayKey, Kept;
    var more := sections + [x];
    assert forall k :: 0 <= k < |sections| ==> more[k] == sections[k];
    if Found(more, j) {
      var i :| 0 <= i < j && more[i].error.None? && ReplayKey(more[i].claims) == ReplayKey(more[j].claims) && Kept(more, i, j + 1);
      KeptEarlier(sections, x, i, j + 1);
    }
    if Found(sections, j) {
      var i :| 0 <= i < j && sections[i].error.None? && ReplayKey(sections[i].claims) == ReplayKey(sections[j].claims) && Kept(sections, i, j + 1);
      KeptEarlier(sections, x, i, j + 1);
    }
  }

  lemma AdmitFinds(replay: ReplayTable, sections: seq<Section>, c: Claims, now: int)
    requires TableIs(replay, sections)
    ensures var x := Section(c, now, Admit(replay, c, now).1);
            && (x.error == Some(TicketReplay) <==> Found(sections + [x], |sections|))
            && x.error in {None, Some(TicketReplay), Some(Unauthorized)}
  {
    hide ReplayKey, Unix, Guards;
    var x := Section(c, now, Admit(replay, c, now).1);
    FoundBefore(sections, x);
    if ReplayKey(c) in replay {
      var i :| 0 <= i < |sections| && Guards(sections, i, ReplayKey(c));
      assert replay[ReplayKey(c)] == sections[i].claims.expiresAt;
    }
  }

  /** Exactly when a ticket is refused as a replay, in every interleaving: it was
      accepted before, and no section since then, its own included, had a clock at
      or past the expiry. Else only a full table keeps it from being accepted. */
  lemma {:induction false} ReplayRefusedIff(env: Env, self: Identity, es: seq<ThreadEvent>, j: nat)
    requires j < |ThreadRun(env, self, es).sections|
    ensures var s := ThreadRun(env, self, es).sections;
            && (s[j].error == Some(TicketReplay) <==> Found(s, j))
            && s[j].error in {None, Some(TicketReplay), Some(Unauthorized)}
  {
    hide TableIs, Found, Admit, Checked;
    var t, e := ThreadRun(env, self, es[..|es| - 1]), es[|es| - 1];
    TableIsHistory(env, self, es[..|es| - 1]);
    if e.Lock? && e.id in t.waiting {
      var (c, now) := t.waiting[e.id];
      var x := Section(c, now, Admit(t.replay, c, now).1);
      if j < |t.sections| {
        ReplayRefusedIff(env, self, es[..|es| - 1], j);
        FoundEarlier(t.sections, x, j);
      } else {
        AdmitFinds(t.replay, t.sections, c, now);
      }
    } else {
      ReplayRefusedIff(env, self, es[..|es| - 1], j);
    }
  }

  lemma NotFoundNotKept(sections: seq<Section>, i: nat, j: nat)
    requires i < j < |sections| && sections[i].error.None? && ReplayKey(sections[i].claims) == ReplayKey(sections[j].claims)
    requires !Found(sections, j)
    ensures !Kept(sections, i, j + 1)
  {
  }

  /** Hence a ticket is accepted twice only if in between a call overtook the second
      one: it got the lock earlier, with a clock at or past the ticket's expiry, while
      the second one had read its clock before the expiry. */
  lemma AcceptedTwiceIsOvertaken(env: Env, self: Identity, es: seq<ThreadEvent>, i: nat, j: nat)
    requires var s := ThreadRun(env, self, es).sections;
             i < j < |s| && s[i].error.None? && s[j].error.None? && s[i].claims == s[j].claims
    ensures var s := ThreadRun(env, self, es).sections;
            exists k :: i < k < j && Unix(s[j].now) < s[i].claims.expiresAt <= Unix(s[k].now)
  {
    hide ThreadRun, ThreadStep, ReplayKey, Unix, Found, Guards;
    ReplayRefusedIff(env, self, es, j);
    TableIsHistory(env, self, es);
    var s := ThreadRun(env, self, es).sections;
    NotFoundNotKept(s, i, j);
    var k :| i < k < j + 1 && Unix(s[k].now) >= s[i].claims.expiresAt;
  }

  /** With locks taken in the order of the clocks no ticket is accepted twice. */
  lemma OncePerClockOrder(env: Env, self: Identity, es: seq<ThreadEvent>, i: nat, j: nat)
    requires var s := ThreadRun(env, self, es).sections;
             && i < j < |s| && s[i].error.None? && s[i].claims == s[j].claims
             && forall k :: i < k < j ==> s[k].now <= s[j].now
    ensures ThreadRun(env, self, es).sections[j].error.Some?
  {
    hide ThreadRun;
    if ThreadRun(env, self, es).sections[j].error.None? {
      AcceptedTwiceIsOvertaken(env, self, es, i, j);
    }
  }

  lemma Entered(env: Env, self: Identity, t: Threads, call: Call, c: Claims)
    requires Checked(env, self, call.request, call.validator, call.requirePolicy, call.now) == Ok(c)
    ensures ThreadStep(env, self, t, Enter(call)) == t.(waiting := t.waiting[t.nextId := (c, call.now)], nextId := t.nextId + 1)
    ensures Unix(call.now) < c.expiresAt
  {
    PassedIsUnexpired(env, self, call, c);
    hide Checked, Unix;
  }

  /** A section that finds none but at most one other ticket, all expired or not. */
  lemma Locked(env: Env, self: Identity, t: Threads, id: nat, key: string)
    requires id in t.waiting && t.replay.Keys <= {key}
    requires ReplayKey(t.waiting[id].0) !in Unexpired(t.replay, t.waiting[id].1)
    ensures var (c, now) := t.waiting[id];
            ThreadStep(env, self, t, Lock(id)) ==
            Threads(Unexpired(t.replay, now)[ReplayKey(c) := c.expiresAt], t.waiting - {id}, t.nextId, t.sections + [Section(c, now, None)])
  {
    hide ReplayKey, Unix;
    SubsetSize(Unexpired(t.replay, t.waiting[id].1).Keys, {key});
  }

  lemma RunPair(env: Env, self: Identity, es: seq<ThreadEvent>, a: ThreadEvent, b: ThreadEvent)
    ensures ThreadRun(env, self, es + [a, b]) == ThreadStep(env, self, ThreadStep(env, self, ThreadRun(env, self, es), a), b)
  {
    hide ThreadStep;
    var e1, e2 := es + [a], es + [a, b];
    assert e1[..|e1| - 1] == es && e2[..|e2| - 1] == e1;
    assert ThreadRun(env, self, e1) == ThreadStep(env, self, ThreadRun(env, self, es), a);
  }

  /** Any two tickets and any checks: the first is accepted, used again before its
      expiry, overtaken there by the second after its expiry, and accepted again. */
  lemma OvertakenIsReplayed(env: Env, self: Identity, first: Call, again: Call, late: Call, c: Claims, d: Claims)
    requires Checked(env, self, first.request, first.validator, first.requirePolicy, first.now) == Ok(c)
    requires Checked(env, self, again.request, again.validator, again.requirePolicy, again.now) == Ok(c)
    requires Checked(env, self, late.request, late.validator, late.requirePolicy, late.now) == Ok(d)
    requires ReplayKey(c) != ReplayKey(d) && c.expiresAt <= Unix(late.now)
    ensures ThreadRun(env, self, [Enter(first), Lock(0), Enter(again), Enter(late), Lock(2), Lock(1)]).sections ==
            [Section(c, first.now, None), Section(d, late.now, None), Section(c, again.now, None)]
  {
    hide Checked, ReplayKey, Unix, ThreadStep, ThreadRun;
    RunPair(env, self, [], Enter(first), Lock(0));
    RunPair(env, self, [Enter(first), Lock(0)], Enter(again), Enter(late));
    RunPair(env, self, [Enter(first), Lock(0), Enter(again), Enter(late)], Lock(2), Lock(1));
    assert [] + [Enter(first), Lock(0)] == [Enter(first), Lock(0)];
    assert [Enter(first), Lock(0)] + [Enter(again), Enter(late)] == [Enter(first), Lock(0), Enter(again), Enter(late)];
    assert [Enter(first), Lock(0), Enter(again), Enter(late)] + [Lock(2), Lock(1)]
           == [Enter(first), Lock(0), Enter(again), Enter(late), Lock(2), Lock(1)];
    NothingRun(env, self);
    var t0 := Threads(map[], map[], 0, []);
    Entered(env, self, t0, first, c);
    var t1 := ThreadStep(env, self, t0, Enter(first));
    Locked(env, self, t1, 0, ReplayKey(c));
    var t2 := ThreadStep(env, self, t1, Lock(0));
    assert t2.replay == map[ReplayKey(c) := c.expiresAt] && t2.waiting == map[];
    Entered(env, self, t2, again, c);
    var t3 := ThreadStep(env, self, t2, Enter(again));
    Entered(env, self, t3, late, d);
    var t4 := ThreadStep(env, self, t3, Enter(late));
    Locked(env, self, t4, 2, ReplayKey(c));
    var t5 := ThreadStep(env, self, t4, Lock(2));
    assert t5.replay.Keys <= {ReplayKey(d)};
    Locked(env, self, t5, 1, ReplayKey(d));
  }

  lemma NothingRun(env: Env, self: Identity)
    ensures ThreadRun(env, self, []) == Threads(map[], map[], 0, [])
  {
  }

  lemma PassedIsUnexpired(env: Env, self: Identity, call: Call, c: Claims)
    requires Checked(env, self, call.request, call.validator, call.requirePolicy, call.now) == Ok(c)
    ensures Unix(call.now) < c.expiresAt
  {
  }

  // ---- Such calls exist ----

  function TicketOf(nonce: string, at: int, seconds: int): Claims {
    Claims(1, "issuer", "client", "exit", 1, 1, nonce, at, at + seconds, ["proxy"])
  }

  /** An environment that knows two tickets: one of a minute, one issued a minute later. */
  function TwoTickets(): Env {
    Env((b: seq<byte>) => Some(Signed(if b == [1] then TicketOf("first-ticket-0001", 100, 60) else TicketOf("other-ticket-0002", 150, 60),
                                      seq(64, _ => 0))),
        (c, signature) => true, (t: string) => t, 1, 1, "proxy")
  }

  function UseOf(ticket: seq<byte>, second: int): Call {
    Call(AuthRequest(1, "client", "exit", ticket), Permits, false, second * 1_000_000_000)
  }

  /** A ticket for the seconds 100 to 160 is accepted at 100 and again with the clock
      159, because a call with the clock 161 got the lock before. */
  lemma ReplayedTicket()
    ensures var env, self := TwoTickets(), Identity("issuer", "exit");
            var es := [Enter(UseOf([1], 100)), Lock(0), Enter(UseOf([1], 159)), Enter(UseOf([2], 161)), Lock(2), Lock(1)];
            var c, d := TicketOf("first-ticket-0001", 100, 60), TicketOf("other-ticket-0002", 150, 60);
            ThreadRun(env, self, es).sections ==
            [Section(c, 100_000_000_000, None), Section(d, 161_000_000_000, None), Section(c, 159_000_000_000, None)]
  {
    var c, d := TicketOf("first-ticket-0001", 100, 60), TicketOf("other-ticket-0002", 150, 60);
    PassesChecks([1], 100, c);
    PassesChecks([1], 159, c);
    PassesChecks([2], 161, d);
    assert ReplayKey(c)[7] != ReplayKey(d)[7];
    OvertakenIsReplayed(TwoTickets(), Identity("issuer", "exit"), UseOf([1], 100), UseOf([1], 159), UseOf([2], 161), c, d);
  }

  lemma PassesChecks(ticket: seq<byte>, second: int, c: Claims)
    requires ticket == [1] || ticket == [2]
    requires c == if ticket == [1] then TicketOf("first-ticket-0001", 100, 60) else TicketOf("other-ticket-0002", 150, 60)
    requires c.issuedAt <= second < c.expiresAt
    ensures var call := UseOf(ticket, second);
            Checked(TwoTickets(), Identity("issuer", "exit"), call.request, call.validator, call.requirePolicy, call.now) == Ok(c)
  {
    var env, self, call := TwoTickets(), Identity("issuer", "exit"), UseOf(ticket, second);
    assert env.decode(ticket) == Some(Signed(c, seq(64, _ => 0)));
    assert TimeError(c, call.now) == None;
    assert RequestOk(env, self, call.request);
    assert c.capabilities[0] == "proxy";
    assert ClaimsOk(env, self, call.request, c);
  }
}
