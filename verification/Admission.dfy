/** What lets a Public Direct ticket in: the answer to a call, spelled out field by field
    and traced to the tickets accepted before it. */
module Admission {
  import opened Bytes
  import opened Addresses
  import opened Sets
  import opened Tickets

  /** The call carries a well-formed ticket with these claims, made by the issuer for this
      client and exit, under an Ed25519 signature that verifies. */
  ghost predicate Genuine(env: Env, self: Identity, request: AuthRequest, c: Claims) {
    && request.version == env.authVersion && env.trim(request.client) != "" && env.trim(request.exit) == self.exit
    && 1 <= |request.ticket| <= 4096
    && (exists signature: seq<byte> ::
          env.decode(request.ticket) == Some(Signed(c, signature)) && |signature| == 64 && env.verify(c, signature))
    && c.version == env.ticketVersion
    && env.trim(c.issuer) == self.issuer
    && env.trim(c.client) == env.trim(request.client)
    && c.exit == self.exit && env.trim(c.exit) == self.exit
    && c.policyRevision >= 1 && c.authorizationRevision >= 1
    && 16 <= |c.nonce| <= 64
    && (exists i :: 0 <= i < |c.capabilities| && c.capabilities[i] == env.proxyCapability)
  }

  /** In whole seconds: issued not more than 30 s ahead, and ends after it begins. */
  predicate Begun(c: Claims, now: int) {
    c.issuedAt <= now / 1_000_000_000 + 30 && c.issuedAt < c.expiresAt
  }

  /** Issued at most 330 s ago, for at most 300 s as an int64 number of nanoseconds sees it. */
  ghost predicate Short(c: Claims, now: int) {
    && now / 1_000_000_000 <= c.issuedAt + 330
    && exists wraps: int ::
         -0x8000_0000_0000_0000 <= (c.expiresAt - c.issuedAt) * 1_000_000_000 - wraps * 0x1_0000_0000_0000_0000 <= 300_000_000_000
  }

  predicate Permitted(call: Call) {
    call.validator == Permits || (call.validator == NoValidator && !call.requirePolicy)
  }

  /** The ticket passes every check before the replay table. */
  ghost predicate Passes(env: Env, self: Identity, call: Call, c: Claims) {
    && Genuine(env, self, call.request, c) && Permitted(call)
    && Begun(c, call.now) && call.now / 1_000_000_000 < c.expiresAt && Short(c, call.now)
  }

  lemma GenuineIff(env: Env, self: Identity, request: AuthRequest, c: Claims)
    ensures Genuine(env, self, request, c) <==>
            && RequestOk(env, self, request) && env.decode(request.ticket).Some? && env.decode(request.ticket).value.claims == c
            && ClaimsOk(env, self, request, c)
            && |env.decode(request.ticket).value.signature| == 64 && env.verify(c, env.decode(request.ticket).value.signature)
  {
    if env.proxyCapability in c.capabilities {
      var i :| 0 <= i < |c.capabilities| && c.capabilities[i] == env.proxyCapability;
    }
    if env.decode(request.ticket).Some? {
      assert env.decode(request.ticket) == Some(Signed(c, env.decode(request.ticket).value.signature))
             <==> env.decode(request.ticket).value.claims == c;
    }
  }

  lemma WrapsIff(n: int)
    ensures Int64(n) <= 300_000_000_000 <==>
            exists wraps: int :: -0x8000_0000_0000_0000 <= n - wraps * 0x1_0000_0000_0000_0000 <= 300_000_000_000
  {
    var w := (n + 0x8000_0000_0000_0000) / 0x1_0000_0000_0000_0000;
    assert Int64(n) == n - w * 0x1_0000_0000_0000_0000;
    forall wraps: int | -0x8000_0000_0000_0000 <= n - wraps * 0x1_0000_0000_0000_0000 <= 300_000_000_000
      ensures wraps == w
    {
      OneWrap(n + 0x8000_0000_0000_0000, wraps);
    }
  }

  lemma OneWrap(m: int, wraps: int)
    requires 0 <= m - wraps * 0x1_0000_0000_0000_0000 < 0x1_0000_0000_0000_0000
    ensures wraps == m / 0x1_0000_0000_0000_0000
  {
  }

  lemma TimeIff(c: Claims, now: int)
    ensures TimeError(c, now) == Some(TicketExpired) <==> Begun(c, now) && c.expiresAt <= now / 1_000_000_000
    ensures TimeError(c, now) == None <==> Begun(c, now) && now / 1_000_000_000 < c.expiresAt && Short(c, now)
    ensures TimeError(c, now) in {None, Some(TicketExpired), Some(Unauthorized)}
  {
    hide Int64;
    WrapsIff((c.expiresAt - c.issuedAt) * 1_000_000_000);
  }

  /** The checks let exactly such tickets through. */
  lemma PassesIff(env: Env, self: Identity, call: Call, c: Claims)
    ensures Checked(env, self, call.request, call.validator, call.requirePolicy, call.now) == Ok(c) <==> Passes(env, self, call, c)
  {
    hide RequestOk, ClaimsOk, TimeError, Genuine, Short, Begun;
    GenuineIff(env, self, call.request, c);
    TimeIff(c, call.now);
  }

  lemma ExpiredIff(env: Env, self: Identity, call: Call)
    ensures Checked(env, self, call.request, call.validator, call.requirePolicy, call.now) == Err(TicketExpired) <==>
            exists c :: Genuine(env, self, call.request, c) && Begun(c, call.now) && c.expiresAt <= call.now / 1_000_000_000
    ensures var r := Checked(env, self, call.request, call.validator, call.requirePolicy, call.now);
            r.Err? ==> r.error == Unauthorized || r.error == TicketExpired
  {
    hide RequestOk, ClaimsOk, TimeError, Genuine, Short, Begun;
    if env.decode(call.request.ticket).Some? {
      var c := env.decode(call.request.ticket).value.claims;
      GenuineIff(env, self, call.request, c);
      TimeIff(c, call.now);
    }
    forall c | Genuine(env, self, call.request, c) ensures env.decode(call.request.ticket).Some? && c == env.decode(call.request.ticket).value.claims {
      GenuineIff(env, self, call.request, c);
    }
  }

  // ---- Calls one after the other ----

  /** What the replay table tells tickets apart by. */
  function Mark(c: Claims): string {
    c.issuer + [0 as char] + c.nonce
  }

  /** The marks of the accepted tickets that are not expired. */
  ghost function InUse(accepted: seq<(Claims, int)>, now: int): set<string> {
    set i | 0 <= i < |accepted| && now / 1_000_000_000 < accepted[i].0.expiresAt :: Mark(accepted[i].0)
  }

  /** Every entry of the table belongs to an accepted ticket. */
  ghost predicate Sourced(h: History) {
    forall key :: key in h.replay ==> exists i :: 0 <= i < |h.accepted| && Mark(h.accepted[i].0) == key && h.accepted[i].0.expiresAt == h.replay[key]
  }

  lemma SourcedStep(env: Env, self: Identity, h: History, call: Call)
    requires Sourced(h)
    ensures var (replay, r) := Authenticated(env, self, h.replay, call);
            Sourced(History(replay, if r.Ok? then h.accepted + [(r.value, call.now)] else h.accepted))
  {
    hide Checked;
    var (replay, r) := Authenticated(env, self, h.replay, call);
    var h' := History(replay, if r.Ok? then h.accepted + [(r.value, call.now)] else h.accepted);
    forall key | key in replay
      ensures exists i :: 0 <= i < |h'.accepted| && Mark(h'.accepted[i].0) == key && h'.accepted[i].0.expiresAt == replay[key]
    {
      if r.Ok? && key == ReplayKey(r.value) {
        assert h'.accepted[|h.accepted|].0 == r.value;
      } else {
        var i :| 0 <= i < |h.accepted| && Mark(h.accepted[i].0) == key && h.accepted[i].0.expiresAt == h.replay[key];
        assert h'.accepted[i] == h.accepted[i];
      }
    }
  }

  lemma {:induction false} SourcedRun(env: Env, self: Identity, calls: seq<Call>)
    ensures Sourced(Run(env, self, calls))
  {
    hide Authenticated;
    if calls != [] {
      SourcedRun(env, self, calls[..|calls| - 1]);
      SourcedStep(env, self, Run(env, self, calls[..|calls| - 1]), calls[|calls| - 1]);
    }
  }

  lemma TableIsInUse(h: History, now: int)
    requires Sourced(h) && Inv(h, now)
    ensures Unexpired(h.replay, now).Keys == InUse(h.accepted, now)
  {
    forall key | key in Unexpired(h.replay, now) ensures key in InUse(h.accepted, now) {
      var i :| 0 <= i < |h.accepted| && Mark(h.accepted[i].0) == key && h.accepted[i].0.expiresAt == h.replay[key];
    }
    forall i | 0 <= i < |h.accepted| && now / 1_000_000_000 < h.accepted[i].0.expiresAt ensures Mark(h.accepted[i].0) in Unexpired(h.replay, now) {
      assert Remembered(h, i, now);
    }
  }

  lemma AdmitIff(h: History, c: Claims, now: int)
    requires Unexpired(h.replay, now).Keys == InUse(h.accepted, now)
    ensures Admit(h.replay, c, now).1 ==
            if Mark(c) in InUse(h.accepted, now) then Some(TicketReplay)
            else if |InUse(h.accepted, now)| >= 8192 then Some(Unauthorized)
            else None
  {
    hide InUse;
    assert |Unexpired(h.replay, now)| == |Unexpired(h.replay, now).Keys|;
  }

  /** With a clock that never goes back: a call is answered with claims exactly when its
      ticket passes, is none of the accepted ones still in use, and fewer than 8192 are in
      use; it is a replay, or expired, exactly when it would pass otherwise. */
  lemma AnswerIff(env: Env, self: Identity, calls: seq<Call>, call: Call)
    requires Clocked(calls + [call])
    ensures var h := Run(env, self, calls);
            var used, answer := InUse(h.accepted, call.now), Authenticated(env, self, h.replay, call).1;
            && (forall c :: answer == Ok(c) <==> Passes(env, self, call, c) && Mark(c) !in used && |used| < 8192)
            && (answer == Err(TicketReplay) <==> exists c :: Passes(env, self, call, c) && Mark(c) in used)
            && (answer == Err(TicketExpired) <==>
                  exists c :: Genuine(env, self, call.request, c) && Begun(c, call.now) && c.expiresAt <= call.now / 1_000_000_000)
  {
    var h := Run(env, self, calls);
    OneBehind(calls, call);
    AcceptedOnce(env, self, calls, call.now);
    SourcedRun(env, self, calls);
    TableIsInUse(h, call.now);
    forall c ensures Checked(env, self, call.request, call.validator, call.requirePolicy, call.now) == Ok(c) <==> Passes(env, self, call, c) {
      PassesIff(env, self, call, c);
    }
    ExpiredIff(env, self, call);
    hide Run, Checked, Inv, Sourced, InUse, Mark, Passes, Genuine, Admit;
    var r := Checked(env, self, call.request, call.validator, call.requirePolicy, call.now);
    if r.Ok? {
      AdmitIff(h, r.value, call.now);
    }
  }

  lemma OneBehind(calls: seq<Call>, call: Call)
    requires Clocked(calls + [call])
    ensures Clocked(calls) && forall i :: 0 <= i < |calls| ==> calls[i].now <= call.now
  {
    var all := calls + [call];
    forall i, j | 0 <= i < j < |calls| ensures calls[i].now <= calls[j].now {
      assert all[i].now <= all[j].now;
    }
    forall i | 0 <= i < |calls| ensures calls[i].now <= call.now {
      assert all[i].now <= all[|calls|].now;
    }
  }

  /** Every accepted ticket of every run, whatever the clock does, comes from a call at
      that time that it passed in. */
  lemma {:induction false} AcceptedPassed(env: Env, self: Identity, calls: seq<Call>, i: nat)
    requires i < |Run(env, self, calls).accepted|
    ensures exists j :: 0 <= j < |calls| && calls[j].now == Run(env, self, calls).accepted[i].1
                        && Passes(env, self, calls[j], Run(env, self, calls).accepted[i].0)
  {
    hide Checked, Admit, Passes;
    var n := |calls| - 1;
    var before := Run(env, self, calls[..n]);
    if i < |before.accepted| {
      AcceptedPassed(env, self, calls[..n], i);
      var j :| 0 <= j < n && calls[..n][j].now == before.accepted[i].1 && Passes(env, self, calls[..n][j], before.accepted[i].0);
      assert calls[j] == calls[..n][j];
    } else {
      PassesIff(env, self, calls[n], Run(env, self, calls).accepted[i].0);
      assert calls[n].now == Run(env, self, calls).accepted[i].1;
    }
  }

  // ---- Calls that overlap ----

  /** In every interleaving: each ticket that waits for the lock or had it comes from a
      call that it passed in, with the clock that this call read. */
  ghost predicate PassedIn(env: Env, self: Identity, es: seq<ThreadEvent>, c: Claims, now: int) {
    exists j :: 0 <= j < |es| && es[j].Enter? && es[j].call.now == now && Passes(env, self, es[j].call, c)
  }

  lemma PassedLonger(env: Env, self: Identity, es: seq<ThreadEvent>, c: Claims, now: int)
    requires es != [] && PassedIn(env, self, es[..|es| - 1], c, now)
    ensures PassedIn(env, self, es, c, now)
  {
    hide Passes;
    var before := es[..|es| - 1];
    var j :| 0 <= j < |before| && before[j].Enter? && before[j].call.now == now && Passes(env, self, before[j].call, c);
    assert es[j] == before[j];
  }

  lemma {:induction false} SectionsPassed(env: Env, self: Identity, es: seq<ThreadEvent>)
    ensures var t := ThreadRun(env, self, es);
            && (forall id :: id in t.waiting ==> PassedIn(env, self, es, t.waiting[id].0, t.waiting[id].1))
            && (forall i :: 0 <= i < |t.sections| ==> PassedIn(env, self, es, t.sections[i].claims, t.sections[i].now))
  {
    if es != [] {
      var n := |es| - 1;
      SectionsPassed(env, self, es[..n]);
      hide PassedIn, Checked, Admit, ThreadRun;
      var t := ThreadRun(env, self, es[..n]);
      forall c, now | PassedIn(env, self, es[..n], c, now) ensures PassedIn(env, self, es, c, now) {
        PassedLonger(env, self, es, c, now);
      }
      RunLast(env, self, es);
      if es[n].Enter? {
        var call := es[n].call;
        var r := Checked(env, self, call.request, call.validator, call.requirePolicy, call.now);
        if r.Ok? {
          EnteredPassed(env, self, es, r.value);
        }
      }
    }
  }

  lemma RunLast(env: Env, self: Identity, es: seq<ThreadEvent>)
    requires es != []
    ensures ThreadRun(env, self, es) == ThreadStep(env, self, ThreadRun(env, self, es[..|es| - 1]), es[|es| - 1])
  {
  }

  lemma EnteredPassed(env: Env, self: Identity, es: seq<ThreadEvent>, c: Claims)
    requires es != [] && es[|es| - 1].Enter?
    requires var call := es[|es| - 1].call; Checked(env, self, call.request, call.validator, call.requirePolicy, call.now) == Ok(c)
    ensures PassedIn(env, self, es, c, es[|es| - 1].call.now)
  {
    PassesIff(env, self, es[|es| - 1].call, c);
    hide Checked, Passes;
  }

  /** A call waits for the lock exactly when its ticket passes. */
  lemma WaitsIff(env: Env, self: Identity, t: Threads, call: Call, c: Claims)
    ensures Passes(env, self, call, c) ==>
              ThreadStep(env, self, t, Enter(call)) == t.(waiting := t.waiting[t.nextId := (c, call.now)], nextId := t.nextId + 1)
    ensures (forall d :: !Passes(env, self, call, d)) ==> ThreadStep(env, self, t, Enter(call)) == t
  {
    PassesIff(env, self, call, c);
    var r := Checked(env, self, call.request, call.validator, call.requirePolicy, call.now);
    if r.Ok? {
      PassesIff(env, self, call, r.value);
    }
    hide Checked, Passes;
  }
}
