/** Which name an address was looked up under: a passive index of matched DNS
    exchanges. Messages arrive unpacked and with canonical names; case folding is
    a parameter. Times are nanoseconds. */
module DnsNames {
  import opened Bytes
  import opened Addresses
  import opened Sets

  datatype Body = ABody(a: Bytes4) | AAAABody(aaaa: Bytes16) | Cname(target: string) | OtherBody

  datatype Answer = Answer(name: string, inet: bool, kind: uint16, ttl: uint32, body: Body)

  datatype Asked = Asked(name: string, inet: bool, kind: uint16)

  datatype Message = Message(
    id: uint16, response: bool, opCode: nat, truncated: bool, success: bool,
    questions: seq<Asked>, answers: seq<Answer>)

  // ---- Canonical names ----

  function DnsName(lower: string -> string, raw: string): string {
    lower(if raw != "" && raw[|raw| - 1] == '.' then raw[..|raw| - 1] else raw)
  }

  function CanonicalAnswer(lower: string -> string, a: Answer): Answer {
    a.(name := DnsName(lower, a.name), body := if a.body.Cname? then Cname(DnsName(lower, a.body.target)) else a.body)
  }

  function Canonical(lower: string -> string, m: Message): Message {
    m.(questions := seq(|m.questions|, i requires 0 <= i < |m.questions| => m.questions[i].(name := DnsName(lower, m.questions[i].name))),
       answers := seq(|m.answers|, i requires 0 <= i < |m.answers| => CanonicalAnswer(lower, m.answers[i])))
  }

  // ---- Following CNAMEs ----

  function MinTtl(x: uint32, y: uint32): uint32 {
    if x < y then x else y
  }

  predicate Owned(a: Answer, name: string) {
    a.inet && a.name == name && a.body.Cname?
  }

  /** The loop over a name's CNAME answers: None for two targets; "" for none. */
  function Cnames(answers: seq<Answer>, name: string, next: string, ttl: uint32): Option<(string, uint32)> {
    if answers == [] then Some((next, ttl))
    else if !Owned(answers[0], name) then Cnames(answers[1..], name, next, ttl)
    else if next != "" && next != answers[0].body.target then None
    else Cnames(answers[1..], name, answers[0].body.target, MinTtl(ttl, answers[0].ttl))
  }

  /** The owner of the final answers, and the least TTL on the way there. */
  function Resolve(answers: seq<Answer>, name: string, seen: set<string>, depth: nat, ttl: uint32): Option<(string, uint32)>
    decreases 16 - depth
  {
    if depth >= 16 || name in seen then None else
    match Cnames(answers, name, "", ttl)
    case None => None
    case Some((next, least)) =>
      if next == "" then Some((name, least)) else Resolve(answers, next, seen + {name}, depth + 1, least)
  }

  method FollowCnames(answers: seq<Answer>, query: string) returns (r: Option<(string, uint32)>)
    ensures r == Resolve(answers, query, {}, 0, 300)
  {
    hide Cnames, Owned;
    var name, ttl, seen: set<string>, depth := query, 300, {}, 0;
    while depth < 16
      invariant depth <= 16 && Resolve(answers, name, seen, depth, ttl) == Resolve(answers, query, {}, 0, 300)
      decreases 16 - depth
    {
      if name in seen {
        return None;
      }
      var found := ScanCnames(answers, name, ttl);
      if found.None? {
        return None;
      }
      if found.value.0 == "" {
        return Some((name, found.value.1));
      }
      seen := seen + {name};
      name, ttl, depth := found.value.0, found.value.1, depth + 1;
    }
    return None;
  }

  method ScanCnames(answers: seq<Answer>, name: string, ttl: uint32) returns (r: Option<(string, uint32)>)
    ensures r == Cnames(answers, name, "", ttl)
  {
    var next, least := "", ttl;
    var n := 0;
    assert answers[0..] == answers;
    while n < |answers|
      invariant n <= |answers| && Cnames(answers[n..], name, next, least) == Cnames(answers, name, "", ttl)
    {
      assert answers[n..][0] == answers[n] && answers[n..][1..] == answers[n + 1..];
      if Owned(answers[n], name) {
        if next != "" && next != answers[n].body.target {
          return None;
        }
        next, least := answers[n].body.target, MinTtl(least, answers[n].ttl);
      }
      n := n + 1;
    }
    return Some((next, least));
  }

  /** A bound is the least of a start and the TTLs of a name's CNAME answers. */
  ghost predicate LeastTtl(answers: seq<Answer>, name: string, start: uint32, least: uint32) {
    && least <= start
    && (forall i :: 0 <= i < |answers| && Owned(answers[i], name) ==> least <= answers[i].ttl)
    && (least == start || exists i :: 0 <= i < |answers| && Owned(answers[i], name) && answers[i].ttl == least)
  }

  lemma LeastCons(a: Answer, rest: seq<Answer>, name: string, start: uint32, least: uint32)
    requires LeastTtl(rest, name, if Owned(a, name) then MinTtl(start, a.ttl) else start, least)
    ensures LeastTtl([a] + rest, name, start, least)
  {
    var all := [a] + rest;
    forall i | 0 <= i < |all| && Owned(all[i], name) ensures least <= all[i].ttl {
      assert i > 0 ==> all[i] == rest[i - 1];
    }
    if least != start {
      if Owned(a, name) && least == a.ttl {
        assert all[0] == a;
      } else {
        var i :| 0 <= i < |rest| && Owned(rest[i], name) && rest[i].ttl == least;
        assert all[i + 1] == rest[i];
      }
    }
  }

  /** What one hop finds: every CNAME answer of the name counts towards the TTL, and
      the next name is the target of one of them. */
  lemma {:induction false} CnamesFound(answers: seq<Answer>, name: string, next: string, ttl: uint32)
    ensures var r := Cnames(answers, name, next, ttl);
            r.Some? ==> && LeastTtl(answers, name, ttl, r.value.1)
                        && (r.value.0 == next || exists i :: 0 <= i < |answers| && Owned(answers[i], name) && answers[i].body.target == r.value.0)
                        && (forall i :: 0 <= i < |answers| && Owned(answers[i], name) ==>
                              answers[i].body.target == r.value.0 || answers[i].body.target == "")
                        && (next != "" ==> r.value.0 == next)
  {
    hide LeastTtl;
    if answers == [] {
      NoneOwned(name, ttl);
    } else {
      var a, rest := answers[0], answers[1..];
      assert answers == [a] + rest;
      var ttl' := if Owned(a, name) then MinTtl(ttl, a.ttl) else ttl;
      var next' := if Owned(a, name) then a.body.target else next;
      CnamesFound(rest, name, next', ttl');
      var r := Cnames(rest, name, next', ttl');
      if r.Some? {
        LeastCons(a, rest, name, ttl, r.value.1);
        assert forall i :: 0 < i < |answers| ==> answers[i] == rest[i - 1];
        if r.value.0 != next' {
          var i :| 0 <= i < |rest| && Owned(rest[i], name) && rest[i].body.target == r.value.0;
          assert answers[i + 1] == rest[i];
        }
      }
    }
  }

  lemma NoneOwned(name: string, ttl: uint32)
    ensures LeastTtl([], name, ttl, ttl)
  {
  }

  /** A CNAME chain in the answers, with the least TTL of all its CNAMEs. */
  ghost predicate Chain(answers: seq<Answer>, path: seq<string>, start: uint32, least: uint32) {
    && 0 < |path| <= 16
    && (forall i, j :: 0 <= i < j < |path| ==> path[i] != path[j])
    && (forall i :: 0 < i < |path| ==> Linked(answers, path[i - 1], path[i]))
    && least <= start
    && (forall i, j :: 0 <= i < |answers| && 0 <= j < |path| && Owned(answers[i], path[j]) ==> least <= answers[i].ttl)
    && (least == start || Attained(answers, path, least))
  }

  ghost predicate Attained(answers: seq<Answer>, path: seq<string>, ttl: uint32) {
    exists i, j :: 0 <= i < |answers| && 0 <= j < |path| && Owned(answers[i], path[j]) && answers[i].ttl == ttl
  }

  ghost predicate Linked(answers: seq<Answer>, name: string, target: string) {
    exists i :: 0 <= i < |answers| && Owned(answers[i], name) && answers[i].body.target == target
  }

  /** Whatever is resolved was reached over such a chain from the query's name. */
  lemma {:induction false} ResolvedByChain(answers: seq<Answer>, name: string, seen: set<string>, depth: nat, ttl: uint32)
    returns (path: seq<string>)
    requires Resolve(answers, name, seen, depth, ttl).Some?
    ensures var r := Resolve(answers, name, seen, depth, ttl).value;
            && |path| <= 16 - depth && Chain(answers, path, ttl, r.1)
            && path[0] == name && path[|path| - 1] == r.0
            && (forall i :: 0 <= i < |path| ==> path[i] !in seen)
            && !exists i :: 0 <= i < |answers| && Owned(answers[i], r.0) && answers[i].body.target != ""
    decreases 16 - depth
  {
    CnamesFound(answers, name, "", ttl);
    var found := Cnames(answers, name, "", ttl).value;
    hide Cnames;
    if found.0 == "" {
      path := [name];
      ChainOne(answers, name, ttl, found.1);
    } else {
      var rest := ResolvedByChain(answers, found.0, seen + {name}, depth + 1, found.1);
      path := [name] + rest;
      hide Resolve;
      assert Linked(answers, name, found.0);
      ChainCons(answers, name, rest, ttl, found.1, Resolve(answers, found.0, seen + {name}, depth + 1, found.1).value.1);
    }
  }

  lemma ChainOne(answers: seq<Answer>, name: string, start: uint32, least: uint32)
    requires LeastTtl(answers, name, start, least)
    ensures Chain(answers, [name], start, least)
  {
    hide Owned;
    assert [name][0] == name;
    if least != start {
      var i :| 0 <= i < |answers| && Owned(answers[i], name) && answers[i].ttl == least;
      assert Owned(answers[i], [name][0]);
    }
  }

  lemma ChainCons(answers: seq<Answer>, name: string, rest: seq<string>, start: uint32, first: uint32, least: uint32)
    requires Chain(answers, rest, first, least) && |rest| < 16 && first <= start
    requires Linked(answers, name, rest[0]) && forall i :: 0 <= i < |rest| ==> rest[i] != name
    requires LeastTtl(answers, name, start, first)
    ensures Chain(answers, [name] + rest, start, least)
  {
    hide Linked, Owned;
    var path := [name] + rest;
    assert forall i :: 0 < i < |path| ==> path[i] == rest[i - 1];
    forall i | 0 < i < |path| ensures Linked(answers, path[i - 1], path[i]) {
      if i > 1 {
        assert Linked(answers, rest[i - 2], rest[i - 1]);
      }
    }
    if Attained(answers, rest, least) {
      var i, j :| 0 <= i < |answers| && 0 <= j < |rest| && Owned(answers[i], rest[j]) && answers[i].ttl == least;
      assert path[j + 1] == rest[j];
    } else if least != start {
      var i :| 0 <= i < |answers| && Owned(answers[i], name) && answers[i].ttl == least;
      assert path[0] == name;
    }
  }

  /** And an unambiguous chain of at most 16 names is followed to its end. */
  ghost predicate PlainChain(answers: seq<Answer>, path: seq<string>) {
    && 0 < |path| <= 16
    && (forall i, j :: 0 <= i < j < |path| ==> path[i] != path[j])
    && (forall i :: 0 < i < |path| ==> path[i] != "" && OnlyTarget(answers, path[i - 1], path[i]))
    && (forall i :: 0 <= i < |answers| ==> !Owned(answers[i], path[|path| - 1]))
  }

  ghost predicate OnlyTarget(answers: seq<Answer>, name: string, target: string) {
    && (exists i :: 0 <= i < |answers| && Owned(answers[i], name))
    && forall i :: 0 <= i < |answers| && Owned(answers[i], name) ==> answers[i].body.target == target
  }

  lemma {:induction false} OneTarget(answers: seq<Answer>, name: string, target: string, next: string, ttl: uint32)
    requires forall i :: 0 <= i < |answers| && Owned(answers[i], name) ==> answers[i].body.target == target
    requires next == "" || next == target
    ensures Cnames(answers, name, next, ttl).Some?
    ensures Cnames(answers, name, next, ttl).value.0 ==
            if exists i :: 0 <= i < |answers| && Owned(answers[i], name) then target else next
  {
    if answers != [] {
      assert forall i :: 0 < i < |answers| ==> answers[i] == answers[1..][i - 1];
      OneTarget(answers[1..], name, target, if Owned(answers[0], name) then target else next,
                if Owned(answers[0], name) then MinTtl(ttl, answers[0].ttl) else ttl);
      hide Owned;
      if exists i :: 0 <= i < |answers| && Owned(answers[i], name) {
        var i :| 0 <= i < |answers| && Owned(answers[i], name);
        assert i > 0 ==> Owned(answers[1..][i - 1], name);
      }
    }
  }

  lemma {:induction false} ChainIsFollowed(answers: seq<Answer>, path: seq<string>, seen: set<string>, depth: nat, ttl: uint32)
    requires PlainChain(answers, path) && depth + |path| <= 16
    requires forall i :: 0 <= i < |path| ==> path[i] !in seen
    ensures Resolve(answers, path[0], seen, depth, ttl).Some?
    ensures Resolve(answers, path[0], seen, depth, ttl).value.0 == path[|path| - 1]
    decreases |path|
  {
    var name := path[0];
    if |path| == 1 {
      OneTarget(answers, name, "", "", ttl);
      hide Cnames;
    } else {
      OneTarget(answers, name, path[1], "", ttl);
      var rest := path[1..];
      var least := Cnames(answers, name, "", ttl).value.1;
      PlainTail(answers, path);
      hide Cnames, Owned, PlainChain;
      ChainIsFollowed(answers, rest, seen + {name}, depth + 1, least);
    }
  }

  lemma PlainTail(answers: seq<Answer>, path: seq<string>)
    requires PlainChain(answers, path) && |path| > 1
    ensures PlainChain(answers, path[1..]) && path[1] != "" && OnlyTarget(answers, path[0], path[1])
    ensures forall i :: 0 <= i < |path| - 1 ==> path[1..][i] != path[0]
  {
  }

  // ---- Records ----

  /** A record: `stored` is false for one refused by the 8-name limit. */
  datatype Record = Record(ip: Addr, name: string, expires: int, stored: bool)

  function Address(b: Body): Addr {
    match b
    case ABody(a) => V4(a)
    case AAAABody(a) => V6(a, "").Unmap()
    case _ => NoAddr
  }

  /** The address and expiry one final answer asks to remember. */
  function Found(a: Answer, owner: string, kind: uint16, ttl: uint32, now: int): Option<(Addr, int)> {
    if a.inet && a.name == owner && a.kind == kind && Address(a.body) != NoAddr && MinTtl(ttl, a.ttl) > 0 then
      Some((Address(a.body), now + MinTtl(ttl, a.ttl) as int * 1_000_000_000))
    else None
  }

  // ---- The index ----

  datatype Key = Key(client: AddrPort, server: AddrPort, id: uint16, protocol: Protocol)

  datatype Question = Question(name: string, kind: uint16, expires: int)

  /** Names of one address; no ambiguousUntil is the zero time. */
  datatype Names = Names(names: map<string, int>, ambiguousUntil: Option<int>)

  datatype State = State(pending: map<Key, Question>, addresses: map<Addr, Names>, log: seq<Record>)

  predicate After(t: Option<int>, now: int) {
    t.Some? && t.value > now
  }

  function Live(names: map<string, int>, now: int): map<string, int> {
    map n | n in names && names[n] > now :: names[n]
  }

  predicate KeepEntry(e: Names, now: int) {
    Live(e.names, now) != map[] || After(e.ambiguousUntil, now)
  }

  function Pruned(s: State, now: int): State {
    s.(pending := map k | k in s.pending && s.pending[k].expires > now :: s.pending[k],
       addresses := map ip | ip in s.addresses && KeepEntry(s.addresses[ip], now) ::
         s.addresses[ip].(names := Live(s.addresses[ip].names, now)))
  }

  function EntryOf(s: State, ip: Addr): Names {
    if ip in s.addresses then s.addresses[ip] else Names(map[], None)
  }

  function Later(t: Option<int>, expires: int): Option<int> {
    if t.Some? && expires <= t.value then t else Some(expires)
  }

  function Remember(s: State, ip: Addr, name: string, expires: int): State {
    if ip !in s.addresses && |s.addresses| >= 4096 then s else
    var e := EntryOf(s, ip);
    if name !in e.names && |e.names| >= 8 then
      s.(addresses := s.addresses[ip := e.(ambiguousUntil := Later(e.ambiguousUntil, expires))],
         log := s.log + [Record(ip, name, expires, false)])
    else
      s.(addresses := s.addresses[ip := e.(names := e.names[name := expires])],
         log := s.log + [Record(ip, name, expires, true)])
  }

  function RememberAll(s: State, answers: seq<Answer>, owner: string, kind: uint16, ttl: uint32, name: string, now: int): State {
    if answers == [] then s
    else
      var before := RememberAll(s, answers[..|answers| - 1], owner, kind, ttl, name, now);
      match Found(answers[|answers| - 1], owner, kind, ttl, now)
      case None => before
      case Some((ip, expires)) => Remember(before, ip, name, expires)
  }

  // ---- Events ----

  /** Observed messages; `dropped` are the expired names a lookup came across. */
  datatype Event =
    | Query(protocol: Protocol, client: AddrPort, server: AddrPort, msg: Option<Message>, now: int)
    | Response(protocol: Protocol, server: AddrPort, client: AddrPort, msg: Option<Message>, now: int)
    | Lookup(ip: Addr, dropped: set<string>, now: int)

  predicate GoodQuery(server: AddrPort, msg: Option<Message>) {
    && server.port == 53 && msg.Some? && !msg.value.response && msg.value.opCode == 0 && |msg.value.questions| == 1
    && msg.value.questions[0].inet && (msg.value.questions[0].kind == 1 || msg.value.questions[0].kind == 28)
  }

  predicate GoodResponse(server: AddrPort, msg: Option<Message>) {
    && server.port == 53 && msg.Some? && msg.value.response && msg.value.opCode == 0 && !msg.value.truncated
    && msg.value.success && |msg.value.questions| == 1
  }

  /** The response answers this pending question in time. */
  predicate Matches(p: Question, q: Asked, now: int) {
    p.expires > now && p.name == q.name && p.kind == q.kind && q.inet
  }

  function Queried(s: State, key: Key, q: Asked, now: int): State {
    var p := Pruned(s, now);
    if |p.pending| >= 4096 then p
    else p.(pending := p.pending[key := Question(q.name, q.kind, now + 10_000_000_000)])
  }

  function Answered(s: State, key: Key, m: Message, now: int): State
    requires key in s.pending
  {
    var p := s.pending[key];
    var s' := Pruned(s.(pending := s.pending - {key}), now);
    match Resolve(m.answers, p.name, {}, 0, 300)
    case None => s'
    case Some((owner, ttl)) => RememberAll(s', m.answers, owner, p.kind, ttl, p.name, now)
  }

  function Forgotten(s: State, ip: Addr, dropped: set<string>, now: int): State {
    if ip !in s.addresses || After(s.addresses[ip].ambiguousUntil, now) then s
    else
      var e := s.addresses[ip];
      s.(addresses := s.addresses[ip := e.(names := map n | n in e.names && (e.names[n] > now || n !in dropped) :: e.names[n])])
  }

  function Step(s: State, e: Event): State {
    match e
    case Query(protocol, client, server, msg, now) =>
      if !GoodQuery(server, msg) then s
      else Queried(s, Key(client, server, msg.value.id, protocol), msg.value.questions[0], now)
    case Response(protocol, server, client, msg, now) =>
      if !GoodResponse(server, msg) then s else
      var key := Key(client, server, msg.value.id, protocol);
      if key in s.pending && Matches(s.pending[key], msg.value.questions[0], now)
      then Answered(s, key, msg.value, now) else s
    case Lookup(ip, dropped, now) => Forgotten(s, ip.Unmap(), dropped, now)
  }

  function Init(): State {
    State(map[], map[], [])
  }

  function Run(es: seq<Event>): State {
    if es == [] then Init() else Step(Run(es[..|es| - 1]), es[|es| - 1])
  }

  /** The clock does not go back. */
  predicate Clock(es: seq<Event>, now: int) {
    && (forall i :: 0 < i < |es| ==> es[i - 1].now <= es[i].now)
    && (es != [] ==> es[|es| - 1].now <= now)
  }

  // ---- Bounds ----

  ghost predicate Bounded(s: State) {
    && |s.pending| <= 4096 && |s.addresses| <= 4096
    && forall ip :: ip in s.addresses ==> |s.addresses[ip].names| <= 8
  }

  lemma LiveSize(names: map<string, int>, now: int)
    ensures |Live(names, now)| <= |names|
  {
    SubsetSize(Live(names, now).Keys, names.Keys);
  }

  lemma BoundedPruned(s: State, now: int)
    requires Bounded(s)
    ensures Bounded(Pruned(s, now))
  {
    hide KeepEntry, Live;
    var p := Pruned(s, now);
    SubsetSize(p.pending.Keys, s.pending.Keys);
    SubsetSize(p.addresses.Keys, s.addresses.Keys);
    forall ip | ip in p.addresses ensures |p.addresses[ip].names| <= 8 {
      LiveSize(s.addresses[ip].names, now);
    }
  }

  lemma BoundedRemember(s: State, ip: Addr, name: string, expires: int)
    requires Bounded(s)
    ensures Bounded(Remember(s, ip, name, expires))
  {
    hide After;
    MapUpdateSize(s.addresses, ip, EntryOf(s, ip));
    MapUpdateSize(EntryOf(s, ip).names, name, expires);
  }

  lemma {:induction false} BoundedRememberAll(s: State, answers: seq<Answer>, owner: string, kind: uint16, ttl: uint32, name: string, now: int)
    requires Bounded(s)
    ensures Bounded(RememberAll(s, answers, owner, kind, ttl, name, now))
  {
    hide Bounded, Remember, Found;
    if answers != [] {
      var init := answers[..|answers| - 1];
      BoundedRememberAll(s, init, owner, kind, ttl, name, now);
      var found := Found(answers[|answers| - 1], owner, kind, ttl, now);
      if found.Some? {
        BoundedRemember(RememberAll(s, init, owner, kind, ttl, name, now), found.value.0, name, found.value.1);
      }
    }
  }

  lemma BoundedStep(s: State, e: Event)
    requires Bounded(s)
    ensures Bounded(Step(s, e))
  {
    hide Pruned, Bounded, RememberAll, Resolve, Matches, Forgotten;
    match e
    case Query(protocol, client, server, msg, now) =>
      BoundedPruned(s, now);
      if GoodQuery(server, msg) {
        BoundedQueried(Pruned(s, now), Key(client, server, msg.value.id, protocol), Question(msg.value.questions[0].name, msg.value.questions[0].kind, now + 10_000_000_000));
      }
    case Response(protocol, server, client, msg, now) =>
      if GoodResponse(server, msg) {
        var key := Key(client, server, msg.value.id, protocol);
        if key in s.pending {
          var p := s.pending[key];
          BoundedWithout(s, key);
          BoundedPruned(s.(pending := s.pending - {key}), now);
          var r := Resolve(msg.value.answers, p.name, {}, 0, 300);
          if r.Some? {
            BoundedRememberAll(Pruned(s.(pending := s.pending - {key}), now), msg.value.answers, r.value.0, p.kind, r.value.1, p.name, now);
          }
        }
      }
    case Lookup(ip, dropped, now) => BoundedForgotten(s, ip.Unmap(), dropped, now);
  }

  lemma BoundedQueried(p: State, key: Key, q: Question)
    requires Bounded(p)
    ensures |p.pending| < 4096 ==> Bounded(p.(pending := p.pending[key := q]))
  {
    MapUpdateSize(p.pending, key, q);
  }

  lemma BoundedWithout(s: State, key: Key)
    requires Bounded(s)
    ensures Bounded(s.(pending := s.pending - {key}))
  {
    SubsetSize((s.pending - {key}).Keys, s.pending.Keys);
  }

  lemma BoundedForgotten(s: State, ip: Addr, dropped: set<string>, now: int)
    requires Bounded(s)
    ensures Bounded(Forgotten(s, ip, dropped, now))
  {
    hide After;
    var s' := Forgotten(s, ip, dropped, now);
    assert s'.addresses.Keys == s.addresses.Keys;
    if ip in s.addresses {
      SubsetSize(s'.addresses[ip].names.Keys, s.addresses[ip].names.Keys);
    }
  }

  /** Whatever is observed, the tables stay within 4096 questions and addresses and
      eight names an address. */
  lemma {:induction false} BoundedRun(es: seq<Event>)
    ensures Bounded(Run(es))
  {
    hide Step;
    if es != [] {
      BoundedRun(es[..|es| - 1]);
      BoundedStep(Run(es[..|es| - 1]), es[|es| - 1]);
    }
  }

  // ---- The index and the whole history ----

  /** The last record of a name for an address. */
  function Latest(log: seq<Record>, ip: Addr, name: string): Option<Record> {
    if log == [] then None
    else if log[|log| - 1].ip == ip && log[|log| - 1].name == name then Some(log[|log| - 1])
    else Latest(log[..|log| - 1], ip, name)
  }

  /** The last record of the name, if it has not expired. */
  predicate RecordedLive(log: seq<Record>, ip: Addr, name: string, now: int) {
    var r := Latest(log, ip, name);
    r.Some? && r.value.expires > now
  }

  /** Some name was refused for the address and its expiry has not passed. */
  ghost predicate RefusedLive(log: seq<Record>, ip: Addr, now: int) {
    exists i :: 0 <= i < |log| && log[i].ip == ip && !log[i].stored && log[i].expires > now
  }

  ghost predicate Cell(s: State, ip: Addr, name: string, now: int) {
    var r, e := Latest(s.log, ip, name), EntryOf(s, ip);
    if name in e.names then r == Some(Record(ip, name, e.names[name], true))
    else r.Some? && r.value.stored ==> r.value.expires <= now
  }

  ghost predicate Refusals(s: State, ip: Addr, now: int) {
    var t := EntryOf(s, ip).ambiguousUntil;
    && (forall i :: 0 <= i < |s.log| && s.log[i].ip == ip && !s.log[i].stored ==>
          s.log[i].expires <= now || (t.Some? && s.log[i].expires <= t.value))
    && (t.Some? ==> exists i :: 0 <= i < |s.log| && s.log[i].ip == ip && !s.log[i].stored && s.log[i].expires == t.value)
  }

  ghost predicate Inv(s: State, now: int) {
    && (forall ip, name :: Cell(s, ip, name, now))
    && (forall ip :: Refusals(s, ip, now))
  }

  lemma LatestMore(log: seq<Record>, r: Record, ip: Addr, name: string)
    ensures Latest(log + [r], ip, name) == if r.ip == ip && r.name == name then Some(r) else Latest(log, ip, name)
  {
    assert (log + [r])[..|log|] == log;
  }

  lemma LatestIsOf(log: seq<Record>, ip: Addr, name: string)
    ensures var r := Latest(log, ip, name);
            r.Some? ==> r.value.ip == ip && r.value.name == name && exists i :: 0 <= i < |log| && log[i] == r.value
  {
    if log != [] {
      LatestIsOf(log[..|log| - 1], ip, name);
    }
  }

  lemma CellPruned(s: State, ip: Addr, name: string, before: int, now: int)
    requires Cell(s, ip, name, before) && before <= now
    ensures Cell(Pruned(s, now), ip, name, now)
  {
    hide Latest;
  }

  lemma RefusalsPruned(s: State, ip: Addr, before: int, now: int)
    requires Refusals(s, ip, before) && before <= now
    ensures Refusals(Pruned(s, now), ip, now)
  {
    var s' := Pruned(s, now);
    assert s'.log == s.log;
    hide Pruned, Refusals;
    PrunedAmbiguity(s, ip, now);
    RefusalsKept(s, s', ip, before, now);
  }

  lemma PrunedAmbiguity(s: State, ip: Addr, now: int)
    ensures var t, t' := EntryOf(s, ip).ambiguousUntil, EntryOf(Pruned(s, now), ip).ambiguousUntil;
            t' == t || (t' == None && !After(t, now))
  {
    hide Live;
  }

  lemma RefusalsKept(s: State, s': State, ip: Addr, before: int, now: int)
    requires Refusals(s, ip, before) && before <= now && s'.log == s.log
    requires var t, t' := EntryOf(s, ip).ambiguousUntil, EntryOf(s', ip).ambiguousUntil;
             t' == t || (t' == None && !After(t, now))
    ensures Refusals(s', ip, now)
  {
    hide EntryOf;
  }

  lemma InvPruned(s: State, before: int, now: int)
    requires Inv(s, before) && before <= now
    ensures Inv(Pruned(s, now), now)
  {
    hide Pruned, Cell, Refusals;
    forall ip, name ensures Cell(Pruned(s, now), ip, name, now) {
      CellPruned(s, ip, name, before, now);
    }
    forall ip ensures Refusals(Pruned(s, now), ip, now) {
      RefusalsPruned(s, ip, before, now);
    }
  }

  lemma CellRemember(s: State, ip: Addr, name: string, expires: int, jp: Addr, m: string, now: int)
    requires Cell(s, jp, m, now)
    ensures Cell(Remember(s, ip, name, expires), jp, m, now)
  {
    LatestMore(s.log, Record(ip, name, expires, true), jp, m);
    LatestMore(s.log, Record(ip, name, expires, false), jp, m);
    hide Latest, Later;
  }

  lemma RefusalsRemember(s: State, ip: Addr, name: string, expires: int, jp: Addr, now: int)
    requires Refusals(s, jp, now)
    ensures Refusals(Remember(s, ip, name, expires), jp, now)
  {
    var s' := Remember(s, ip, name, expires);
    var t, t' := EntryOf(s, jp).ambiguousUntil, EntryOf(s', jp).ambiguousUntil;
    if s' != s {
      var r := s'.log[|s.log|];
      assert s'.log == s.log + [r] && r.ip == ip && r.expires == expires;
      assert t' == if jp == ip && !r.stored then Later(t, expires) else t;
      hide Remember, EntryOf;
      assert forall i :: 0 <= i < |s.log| ==> s'.log[i] == s.log[i];
      if t'.Some? {
        if t' == t {
          var i :| 0 <= i < |s.log| && s.log[i].ip == jp && !s.log[i].stored && s.log[i].expires == t.value;
          assert s'.log[i] == s.log[i];
        } else {
          assert s'.log[|s.log|] == r;
        }
      }
    }
  }

  lemma InvRemember(s: State, ip: Addr, name: string, expires: int, now: int)
    requires Inv(s, now)
    ensures Inv(Remember(s, ip, name, expires), now)
  {
    hide Remember, Cell, Refusals;
    var s' := Remember(s, ip, name, expires);
    forall jp, m ensures Cell(s', jp, m, now) {
      CellRemember(s, ip, name, expires, jp, m, now);
    }
    forall jp ensures Refusals(s', jp, now) {
      RefusalsRemember(s, ip, name, expires, jp, now);
    }
  }

  lemma {:induction false} InvRememberAll(s: State, answers: seq<Answer>, owner: string, kind: uint16, ttl: uint32, name: string, now: int)
    requires Inv(s, now)
    ensures Inv(RememberAll(s, answers, owner, kind, ttl, name, now), now)
  {
    hide Inv, Remember, Found;
    if answers != [] {
      var init := answers[..|answers| - 1];
      InvRememberAll(s, init, owner, kind, ttl, name, now);
      var found := Found(answers[|answers| - 1], owner, kind, ttl, now);
      if found.Some? {
        InvRemember(RememberAll(s, init, owner, kind, ttl, name, now), found.value.0, name, found.value.1, now);
      }
    }
  }

  lemma InvForgotten(s: State, ip: Addr, dropped: set<string>, before: int, now: int)
    requires Inv(s, before) && before <= now
    ensures Inv(Forgotten(s, ip, dropped, now), now)
  {
    var s' := Forgotten(s, ip, dropped, now);
    forall jp, m ensures Cell(s', jp, m, now) {
      assert Cell(s, jp, m, before);
      hide Latest, Refusals;
    }
    forall jp ensures Refusals(s', jp, now) {
      assert EntryOf(s', jp).ambiguousUntil == EntryOf(s, jp).ambiguousUntil && s'.log == s.log;
      assert Refusals(s, jp, before);
      hide Cell, Forgotten;
      RefusalsKept(s, s', jp, before, now);
    }
  }

  /** The pending table is no part of the invariant. */
  lemma InvPending(s: State, s': State, before: int, now: int)
    requires Inv(s, before) && before <= now && s'.addresses == s.addresses && s'.log == s.log
    ensures Inv(s', now)
  {
    forall ip, name ensures Cell(s', ip, name, now) {
      assert Cell(s, ip, name, before);
    }
    forall ip ensures Refusals(s', ip, now) {
      assert Refusals(s, ip, before);
      hide Cell;
      RefusalsKept(s, s', ip, before, now);
    }
  }

  lemma InvStep(s: State, e: Event, before: int)
    requires Inv(s, before) && before <= e.now
    ensures Inv(Step(s, e), e.now)
  {
    hide Pruned, Inv, RememberAll, Resolve, Matches, Forgotten;
    InvPending(s, s, before, e.now);
    match e
    case Query(protocol, client, server, msg, now) =>
      InvPruned(s, before, now);
      if GoodQuery(server, msg) {
        InvPending(Pruned(s, now), Step(s, e), now, now);
      }
    case Response(protocol, server, client, msg, now) =>
      if GoodResponse(server, msg) {
        var key := Key(client, server, msg.value.id, protocol);
        if key in s.pending {
          var p, s1 := s.pending[key], s.(pending := s.pending - {key});
          InvPending(s, s1, before, now);
          InvPruned(s1, now, now);
          var r := Resolve(msg.value.answers, p.name, {}, 0, 300);
          if r.Some? {
            InvRememberAll(Pruned(s1, now), msg.value.answers, r.value.0, p.kind, r.value.1, p.name, now);
          }
        }
      }
    case Lookup(ip, dropped, now) => InvForgotten(s, ip.Unmap(), dropped, before, now);
  }

  /** With a clock that does not go back, the index agrees with the history of all
      records: stored names with their last record, the ambiguity with the last
      expiry of a refused one. */
  lemma {:induction false} InvRun(es: seq<Event>, now: int)
    requires Clock(es, now)
    ensures Inv(Run(es), now)
  {
    hide Step;
    if es == [] {
      InvInit(now);
    } else {
      var init, e := es[..|es| - 1], es[|es| - 1];
      InvRun(init, e.now);
      InvStep(Run(init), e, e.now);
      InvPending(Run(es), Run(es), e.now, now);
    }
  }

  lemma InvInit(now: int)
    ensures Inv(Init(), now)
  {
  }

  // ---- Lookups ----

  ghost predicate NoDup(order: seq<string>) {
    forall i, j :: 0 <= i < j < |order| ==> order[i] != order[j]
  }

  /** An order in which a map iteration can visit the names of a set. */
  ghost predicate Order(order: seq<string>, names: set<string>) {
    NoDup(order) && forall n :: n in order <==> n in names
  }

  /** The loop over the live names in this order, with `name` found so far. */
  function Scan(order: seq<string>, name: string): string {
    if order == [] then name else if name != "" then "" else Scan(order[1..], order[0])
  }

  /** The answers a lookup can give, depending on the iteration order. */
  ghost predicate CanAnswer(s: State, ip: Addr, now: int, answer: string) {
    var e := EntryOf(s, ip);
    if After(e.ambiguousUntil, now) then answer == ""
    else exists order :: Order(order, Live(e.names, now).Keys) && answer == Scan(order, "")
  }

  lemma ScanValue(order: seq<string>)
    requires NoDup(order)
    ensures Scan(order, "") == if |order| == 1 then order[0] else if |order| == 2 && order[0] == "" then order[1] else ""
  {
    if |order| > 0 {
      if order[0] != "" || |order| == 1 {
        ScanMore(order[1..], order[0]);
      } else if |order| > 1 && order[0] == "" {
        assert order[1] != "";
        ScanMore(order[1..][1..], order[1]);
      }
    }
  }

  lemma ScanMore(order: seq<string>, name: string)
    requires name != "" || order == []
    ensures Scan(order, name) == if order == [] then name else ""
  {
  }

  /** Live names of the index are the live stored records of the history. */
  lemma LiveIsRecorded(s: State, ip: Addr, name: string, now: int)
    requires Inv(s, now)
    ensures name in Live(EntryOf(s, ip).names, now) <==>
            var r := Latest(s.log, ip, name); r.Some? && r.value.stored && r.value.expires > now
  {
    assert Cell(s, ip, name, now);
    hide Latest, Refusals;
  }

  lemma AmbiguousIsRefused(s: State, ip: Addr, now: int)
    requires Inv(s, now)
    ensures After(EntryOf(s, ip).ambiguousUntil, now) <==> RefusedLive(s.log, ip, now)
  {
    assert Refusals(s, ip, now);
    hide Cell, EntryOf;
  }

  lemma RecordedIsLiveOrRefused(s: State, ip: Addr, name: string, now: int)
    requires Inv(s, now) && RecordedLive(s.log, ip, name, now)
    ensures name in Live(EntryOf(s, ip).names, now) || RefusedLive(s.log, ip, now)
  {
    LiveIsRecorded(s, ip, name, now);
    LatestIsOf(s.log, ip, name);
    hide Latest, Inv, Live;
  }

  lemma ScanOfOrder(order: seq<string>, names: set<string>)
    requires Order(order, names)
    ensures var a := Scan(order, "");
            a != "" ==> a in names && forall n :: n in names ==> n == a || n == ""
  {
    ScanValue(order);
    hide Scan;
    var a := Scan(order, "");
    if a != "" {
      forall n | n in names ensures n == a || n == "" {
        assert n in order;
        var i :| 0 <= i < |order| && order[i] == n;
      }
    }
  }

  /** A name is only ever returned when its last record for the address is live and
      no other name, the root aside, has a live last record, be it stored or
      refused by the 8-name limit. */
  lemma LookupJustified(es: seq<Event>, ip: Addr, now: int, answer: string)
    requires Clock(es, now) && CanAnswer(Run(es), ip, now, answer) && answer != ""
    ensures RecordedLive(Run(es).log, ip, answer, now)
    ensures forall other :: other != answer && other != "" ==> !RecordedLive(Run(es).log, ip, other, now)
    ensures !RefusedLive(Run(es).log, ip, now)
  {
    InvRun(es, now);
    hide Run, Inv, RecordedLive;
    var s := Run(es);
    var live := Live(EntryOf(s, ip).names, now);
    AmbiguousIsRefused(s, ip, now);
    var order :| Order(order, live.Keys) && answer == Scan(order, "");
    ScanOfOrder(order, live.Keys);
    LiveIsRecorded(s, ip, answer, now);
    ShowRecorded(s.log, ip, answer, now);
    hide Live, Order, Scan, EntryOf;
    forall other | other != answer && other != "" ensures !RecordedLive(s.log, ip, other, now) {
      if RecordedLive(s.log, ip, other, now) {
        RecordedIsLiveOrRefused(s, ip, other, now);
      }
    }
  }

  lemma ShowRecorded(log: seq<Record>, ip: Addr, name: string, now: int)
    requires var r := Latest(log, ip, name); r.Some? && r.value.expires > now
    ensures RecordedLive(log, ip, name, now)
  {
  }

  /** Conversely, the only name with a live record is found in every order. */
  lemma OnlyNameIsFound(es: seq<Event>, ip: Addr, name: string, now: int, answer: string)
    requires Clock(es, now) && RecordedLive(Run(es).log, ip, name, now) && !RefusedLive(Run(es).log, ip, now)
    requires forall other :: other != name ==> !RecordedLive(Run(es).log, ip, other, now)
    requires CanAnswer(Run(es), ip, now, answer)
    ensures answer == name
  {
    InvRun(es, now);
    hide Run, Inv, RecordedLive;
    var s := Run(es);
    var live := Live(EntryOf(s, ip).names, now);
    AmbiguousIsRefused(s, ip, now);
    RecordedIsLiveOrRefused(s, ip, name, now);
    var order :| Order(order, live.Keys) && answer == Scan(order, "");
    forall n | n in live ensures n == name {
      LiveIsRecorded(s, ip, n, now);
      ShowRecorded(s.log, ip, n, now);
    }
    hide EntryOf, Live;
    OnlyOne(order, live.Keys, name);
    ScanValue(order);
  }

  lemma OnlyOne(order: seq<string>, names: set<string>, name: string)
    requires Order(order, names) && name in names && forall n :: n in names ==> n == name
    ensures order == [name]
  {
    assert name in order;
    assert forall i :: 0 <= i < |order| ==> order[i] in order;
    assert order[0] == order[|order| - 1];
  }

  /** The map's iteration order shows in the answer just when the root is live for
      the address along with exactly one other name. */
  lemma OrderShowsOnlyWithRoot(s: State, ip: Addr, now: int)
    requires !After(EntryOf(s, ip).ambiguousUntil, now)
    ensures var live := Live(EntryOf(s, ip).names, now).Keys;
            (forall a, b :: CanAnswer(s, ip, now, a) && CanAnswer(s, ip, now, b) ==> a == b)
            <==> !exists name :: name != "" && live == {"", name}
  {
    var live := Live(EntryOf(s, ip).names, now).Keys;
    if name :| name != "" && live == {"", name} {
      TwoOrders(live, name);
      assert Order(["", name], live) && Order([name, ""], live);
      ScanValue(["", name]);
      ScanValue([name, ""]);
      assert CanAnswer(s, ip, now, name) && CanAnswer(s, ip, now, "");
    } else {
      hide Live, EntryOf, Scan;
      forall a, b | CanAnswer(s, ip, now, a) && CanAnswer(s, ip, now, b) ensures a == b {
        var x :| Order(x, live) && a == Scan(x, "");
        var y :| Order(y, live) && b == Scan(y, "");
        SameScan(x, y, live);
      }
    }
  }

  lemma TwoOrders(live: set<string>, name: string)
    requires name != "" && live == {"", name}
    ensures Order(["", name], live) && Order([name, ""], live)
  {
  }

  lemma SameScan(x: seq<string>, y: seq<string>, live: set<string>)
    requires Order(x, live) && Order(y, live) && !exists name :: name != "" && live == {"", name}
    ensures Scan(x, "") == Scan(y, "")
  {
    OrderLength(x, live);
    OrderLength(y, live);
    ScanValue(x);
    ScanValue(y);
    hide Scan;
    NoRootPair(x, live);
    NoRootPair(y, live);
    if |x| == 1 {
      assert x[0] in y;
    }
  }

  lemma RootPair(x: seq<string>, live: set<string>)
    requires Order(x, live) && |x| == 2 && x[0] == ""
    ensures x[1] != "" && live == {"", x[1]}
  {
    assert x[1] in x && x[0] in x;
    assert forall n :: n in x ==> n == x[0] || n == x[1];
  }

  lemma NoRootPair(x: seq<string>, live: set<string>)
    requires Order(x, live) && !exists name :: name != "" && live == {"", name}
    ensures |x| == 2 ==> x[0] != ""
  {
    if |x| == 2 && x[0] == "" {
      RootPair(x, live);
    }
  }

  lemma {:induction false} OrderLength(order: seq<string>, names: set<string>)
    requires Order(order, names)
    ensures |order| == |names|
    decreases |order|
  {
    if order == [] {
      assert names == {};
    } else {
      var n := |order| - 1;
      assert order[n] in order;
      forall m | m in order[..n] ensures m in names - {order[n]} {
        var i :| 0 <= i < n && order[..n][i] == m;
        assert order[i] in order && order[i] != order[n];
      }
      forall m | m in names - {order[n]} ensures m in order[..n] {
        assert m in order;
        var i :| 0 <= i < |order| && order[i] == m;
        assert order[..n][i] == m;
      }
      OrderLength(order[..n], names - {order[n]});
    }
  }

  // ---- Where records come from ----

  /** A query and a response to it, over the same protocol and endpoints and within
      ten seconds, and the answer that gave the record: reached from the queried
      name over a CNAME chain, with every TTL on the way respected. */
  ghost predicate Pair(q: Event, a: Event, r: Record) {
    && q.Query? && q.server.port == 53 && q.msg.Some? && !q.msg.value.response && q.msg.value.opCode == 0
    && |q.msg.value.questions| == 1 && q.msg.value.questions[0].inet
    && (q.msg.value.questions[0].kind == 1 || q.msg.value.questions[0].kind == 28)
    && a.Response? && a.server == q.server && a.client == q.client && a.protocol == q.protocol
    && a.msg.Some? && a.msg.value.response && a.msg.value.opCode == 0 && !a.msg.value.truncated && a.msg.value.success
    && a.msg.value.id == q.msg.value.id && a.msg.value.questions == q.msg.value.questions && a.now < q.now + 10_000_000_000
    && q.msg.value.questions[0].name == r.name
    && exists i :: 0 <= i < |a.msg.value.answers|
                   && Given(a.msg.value.answers, a.msg.value.answers[i], q.msg.value.questions[0], a.now, r)
  }

  ghost predicate Given(answers: seq<Answer>, final: Answer, q: Asked, now: int, r: Record) {
    exists path, least :: 
      && Chain(answers, path, 300, least) && path[0] == q.name
      && final.inet && final.kind == q.kind && final.name == path[|path| - 1] && Address(final.body) == r.ip
      && MinTtl(least, final.ttl) > 0 && r.expires == now + MinTtl(least, final.ttl) as int * 1_000_000_000
  }

  ghost predicate Sourced(es: seq<Event>, r: Record) {
    exists i, j :: 0 <= i < j < |es| && Pair(es[i], es[j], r)
  }

  ghost predicate Asks(e: Event, key: Key, p: Question) {
    && e.Query? && GoodQuery(e.server, e.msg) && key == Key(e.client, e.server, e.msg.value.id, e.protocol)
    && p == Question(e.msg.value.questions[0].name, e.msg.value.questions[0].kind, e.now + 10_000_000_000)
  }

  ghost predicate Pending(es: seq<Event>, key: Key, p: Question) {
    exists i :: 0 <= i < |es| && Asks(es[i], key, p)
  }

  ghost predicate AllSourced(es: seq<Event>, s: State) {
    && (forall key :: key in s.pending ==> Pending(es, key, s.pending[key]))
    && (forall i :: 0 <= i < |s.log| ==> Sourced(es, s.log[i]))
  }

  lemma SourcedMore(es: seq<Event>, e: Event, r: Record)
    requires Sourced(es, r)
    ensures Sourced(es + [e], r)
  {
    hide Pair;
    var i, j :| 0 <= i < j < |es| && Pair(es[i], es[j], r);
    assert (es + [e])[i] == es[i] && (es + [e])[j] == es[j];
  }

  lemma PendingMore(es: seq<Event>, e: Event, key: Key, p: Question)
    requires Pending(es, key, p)
    ensures Pending(es + [e], key, p)
  {
    hide Asks;
    var i :| 0 <= i < |es| && Asks(es[i], key, p);
    assert (es + [e])[i] == es[i];
  }

  lemma AllSourcedMore(es: seq<Event>, e: Event, s: State)
    requires AllSourced(es, s)
    ensures AllSourced(es + [e], s)
  {
    hide Sourced, Pending;
    forall key | key in s.pending ensures Pending(es + [e], key, s.pending[key]) {
      PendingMore(es, e, key, s.pending[key]);
    }
    forall i | 0 <= i < |s.log| ensures Sourced(es + [e], s.log[i]) {
      SourcedMore(es, e, s.log[i]);
    }
  }

  /** The records a response adds, one after the other. */
  lemma {:induction false} RecordsAdded(s: State, answers: seq<Answer>, owner: string, kind: uint16, ttl: uint32, name: string, now: int)
    ensures var s' := RememberAll(s, answers, owner, kind, ttl, name, now);
            && s'.pending == s.pending && |s.log| <= |s'.log| && s'.log[..|s.log|] == s.log
            && forall i :: |s.log| <= i < |s'.log| ==> FromAnswers(answers, owner, kind, ttl, name, now, s'.log[i])
  {
    hide Found;
    if answers != [] {
      var n := |answers| - 1;
      RecordsAdded(s, answers[..n], owner, kind, ttl, name, now);
      var before := RememberAll(s, answers[..n], owner, kind, ttl, name, now);
      var s' := RememberAll(s, answers, owner, kind, ttl, name, now);
      hide RememberAll;
      forall i | |s.log| <= i < |before.log| ensures FromAnswers(answers, owner, kind, ttl, name, now, before.log[i]) {
        FromPrefix(answers, owner, kind, ttl, name, now, before.log[i]);
      }
      LastRecord(s, before, answers, owner, kind, ttl, name, now, s');
    }
  }

  ghost predicate FromAnswers(answers: seq<Answer>, owner: string, kind: uint16, ttl: uint32, name: string, now: int, r: Record) {
    r.name == name && exists i :: 0 <= i < |answers| && Found(answers[i], owner, kind, ttl, now) == Some((r.ip, r.expires))
  }

  lemma FromPrefix(answers: seq<Answer>, owner: string, kind: uint16, ttl: uint32, name: string, now: int, r: Record)
    requires answers != [] && FromAnswers(answers[..|answers| - 1], owner, kind, ttl, name, now, r)
    ensures FromAnswers(answers, owner, kind, ttl, name, now, r)
  {
    hide Found;
    var init := answers[..|answers| - 1];
    var i :| 0 <= i < |init| && Found(init[i], owner, kind, ttl, now) == Some((r.ip, r.expires));
    assert answers[i] == init[i];
  }

  lemma LastRecord(s: State, before: State, answers: seq<Answer>, owner: string, kind: uint16, ttl: uint32, name: string, now: int, s': State)
    requires answers != []
    requires s' == match Found(answers[|answers| - 1], owner, kind, ttl, now)
                   case None => before
                   case Some((ip, expires)) => Remember(before, ip, name, expires)
    ensures s'.pending == before.pending && |before.log| <= |s'.log| && s'.log[..|before.log|] == before.log
    ensures forall i :: |before.log| <= i < |s'.log| ==> FromAnswers(answers, owner, kind, ttl, name, now, s'.log[i])
  {
    hide Found, EntryOf;
  }

  /** One response's record has the pair as its source. */
  lemma SourceOf(q: Event, a: Event, p: Question, key: Key, r: Record)
    requires a.Response? && GoodResponse(a.server, a.msg) && Asks(q, key, p)
    requires key == Key(a.client, a.server, a.msg.value.id, a.protocol) && Matches(p, a.msg.value.questions[0], a.now)
    requires var found := Resolve(a.msg.value.answers, p.name, {}, 0, 300);
             found.Some? && FromAnswers(a.msg.value.answers, found.value.0, p.kind, found.value.1, p.name, a.now, r)
    ensures Pair(q, a, r)
  {
    hide Resolve, Chain, Owned;
    var answers := a.msg.value.answers;
    var found := Resolve(answers, p.name, {}, 0, 300).value;
    var path := ResolvedByChain(answers, p.name, {}, 0, 300);
    var i :| 0 <= i < |answers| && Found(answers[i], found.0, p.kind, found.1, a.now) == Some((r.ip, r.expires));
    ChainNotEmpty(answers, path, 300, found.1);
    assert Given(answers, answers[i], q.msg.value.questions[0], a.now, r);
    assert q.msg.value.questions[0] == a.msg.value.questions[0];
  }

  lemma ChainNotEmpty(answers: seq<Answer>, path: seq<string>, start: uint32, least: uint32)
    requires Chain(answers, path, start, least)
    ensures 0 < |path| <= 16
  {
  }

  lemma PrunedKeeps(es: seq<Event>, s: State, now: int)
    requires AllSourced(es, s)
    ensures AllSourced(es, Pruned(s, now))
  {
    hide Sourced, Pending;
    var s' := Pruned(s, now);
    assert s'.log == s.log;
  }

  lemma AnsweredKeeps(es: seq<Event>, s: State, a: Event, key: Key)
    requires AllSourced(es, s) && a.Response? && GoodResponse(a.server, a.msg) && key in s.pending
    requires key == Key(a.client, a.server, a.msg.value.id, a.protocol)
    requires Matches(s.pending[key], a.msg.value.questions[0], a.now)
    ensures AllSourced(es + [a], Answered(s, key, a.msg.value, a.now))
  {
    var p, s1 := s.pending[key], s.(pending := s.pending - {key});
    assert AllSourced(es, s1);
    PrunedKeeps(es, s1, a.now);
    var s2 := Pruned(s1, a.now);
    AllSourcedMore(es, a, s2);
    var found := Resolve(a.msg.value.answers, p.name, {}, 0, 300);
    assert Pending(es, key, p);
    hide Pruned, Resolve, AllSourced, Pending;
    if found.Some? {
      AddedSourced(es, s2, a, p, key);
    }
  }

  lemma AddedSourced(es: seq<Event>, s: State, a: Event, p: Question, key: Key)
    requires AllSourced(es + [a], s) && Pending(es, key, p)
    requires a.Response? && GoodResponse(a.server, a.msg)
    requires key == Key(a.client, a.server, a.msg.value.id, a.protocol) && Matches(p, a.msg.value.questions[0], a.now)
    requires Resolve(a.msg.value.answers, p.name, {}, 0, 300).Some?
    ensures var found := Resolve(a.msg.value.answers, p.name, {}, 0, 300).value;
            AllSourced(es + [a], RememberAll(s, a.msg.value.answers, found.0, p.kind, found.1, p.name, a.now))
  {
    var answers := a.msg.value.answers;
    var found := Resolve(answers, p.name, {}, 0, 300).value;
    RecordsAdded(s, answers, found.0, p.kind, found.1, p.name, a.now);
    var s' := RememberAll(s, answers, found.0, p.kind, found.1, p.name, a.now);
    hide RememberAll, Resolve, FromAnswers, GoodResponse, Asks, Matches, Pair;
    var i :| 0 <= i < |es| && Asks(es[i], key, p);
    forall k | 0 <= k < |s'.log| ensures Sourced(es + [a], s'.log[k]) {
      if k < |s.log| {
        assert s'.log[k] == s'.log[..|s.log|][k];
      } else {
        SourceOf(es[i], a, p, key, s'.log[k]);
        assert (es + [a])[i] == es[i] && (es + [a])[|es|] == a;
      }
    }
  }

  lemma StepSourced(es: seq<Event>, e: Event, s: State)
    requires AllSourced(es, s)
    ensures AllSourced(es + [e], Step(s, e))
  {
    AllSourcedMore(es, e, s);
    hide Pruned, AllSourced, Answered, Queried, Resolve, Matches, Forgotten;
    match e
    case Query(protocol, client, server, msg, now) =>
      if GoodQuery(server, msg) {
        QueriedSourced(es, e, s);
      }
    case Response(protocol, server, client, msg, now) =>
      if GoodResponse(server, msg) {
        var key := Key(client, server, msg.value.id, protocol);
        if key in s.pending && Matches(s.pending[key], msg.value.questions[0], now) {
          AnsweredKeeps(es, s, e, key);
        }
      }
    case Lookup(ip, dropped, now) => ForgottenSourced(es + [e], s, ip.Unmap(), dropped, now);
  }

  lemma ForgottenSourced(es: seq<Event>, s: State, ip: Addr, dropped: set<string>, now: int)
    requires AllSourced(es, s)
    ensures AllSourced(es, Forgotten(s, ip, dropped, now))
  {
    hide Sourced, Pending;
    var s' := Forgotten(s, ip, dropped, now);
    assert s'.log == s.log && s'.pending == s.pending;
  }

  lemma QueriedSourced(es: seq<Event>, e: Event, s: State)
    requires AllSourced(es, s) && e.Query? && GoodQuery(e.server, e.msg)
    ensures AllSourced(es + [e], Queried(s, Key(e.client, e.server, e.msg.value.id, e.protocol), e.msg.value.questions[0], e.now))
  {
    PrunedKeeps(es, s, e.now);
    var p := Pruned(s, e.now);
    AllSourcedMore(es, e, p);
    var key := Key(e.client, e.server, e.msg.value.id, e.protocol);
    var q := Question(e.msg.value.questions[0].name, e.msg.value.questions[0].kind, e.now + 10_000_000_000);
    assert Asks((es + [e])[|es|], key, q);
    assert Pending(es + [e], key, q);
    hide Pruned, Sourced, Pending, Asks;
  }

  /** Every record of every run has its source among the observed messages. */
  lemma {:induction false} RecordsAreSourced(es: seq<Event>)
    ensures AllSourced(es, Run(es))
  {
    hide Step, Sourced, Pending;
    if es != [] {
      var init, e := es[..|es| - 1], es[|es| - 1];
      RecordsAreSourced(init);
      StepSourced(init, e, Run(init));
      assert init + [e] == es;
    }
  }

  /** The whole promise: a returned name was asked for, its answer led to the
      address over a CNAME chain, and the record is live and at most 300 s old. */
  lemma LookupHasSource(es: seq<Event>, ip: Addr, now: int, answer: string) returns (i: nat, j: nat, r: Record)
    requires Clock(es, now) && CanAnswer(Run(es), ip, now, answer) && answer != ""
    ensures i < j < |es| && Pair(es[i], es[j], r)
    ensures r.ip == ip && r.name == answer && now < r.expires <= es[j].now + 300_000_000_000
  {
    LookupJustified(es, ip, now, answer);
    RecordsAreSourced(es);
    var log := Run(es).log;
    LatestIsOf(log, ip, answer);
    hide Run, CanAnswer, Pair, Latest, Pending;
    r := Latest(log, ip, answer).value;
    assert Sourced(es, r);
    i, j :| 0 <= i < j < |es| && Pair(es[i], es[j], r);
    PairBound(es[i], es[j], r);
  }

  lemma PairBound(q: Event, a: Event, r: Record)
    requires Pair(q, a, r)
    ensures r.expires <= a.now + 300_000_000_000
  {
    hide GoodQuery, GoodResponse;
  }

  // ---- The root ----

  function Exchange(name: string, ip: Bytes4): (Event, Event) {
    var here, there := AddrPort(V4([10, 0, 0, 1]), 4000), AddrPort(V4([10, 0, 0, 2]), 53);
    (Query(ProtoUDP, here, there, Some(Message(7, false, 0, false, true, [Asked(name, true, 1)], [])), 0),
     Response(ProtoUDP, there, here,
              Some(Message(7, true, 0, false, true, [Asked(name, true, 1)], [Answer(name, true, 1, 60, ABody(ip))])), 0))
  }

  function KeyOfExchange(): Key {
    Key(AddrPort(V4([10, 0, 0, 1]), 4000), AddrPort(V4([10, 0, 0, 2]), 53), 7, ProtoUDP)
  }

  /** An exchange adds its name to the address's live names. */
  lemma ExchangeAdds(s: State, name: string, ip: Bytes4)
    requires s.pending == map[] && Pruned(s, 0) == s && |s.addresses| < 4096
    requires name in EntryOf(s, V4(ip)).names || |EntryOf(s, V4(ip)).names| < 8
    ensures var e := EntryOf(s, V4(ip));
            Step(Step(s, Exchange(name, ip).0), Exchange(name, ip).1) ==
            State(map[], s.addresses[V4(ip) := e.(names := e.names[name := 60_000_000_000])],
                  s.log + [Record(V4(ip), name, 60_000_000_000, true)])
  {
    var asked := Step(s, Exchange(name, ip).0);
    assert asked == s.(pending := map[KeyOfExchange() := Question(name, 1, 10_000_000_000)]);
    var m := Exchange(name, ip).1.msg.value;
    assert Step(asked, Exchange(name, ip).1) == Answered(asked, KeyOfExchange(), m, 0);
    hide Step, Exchange, KeepEntry, Live;
    assert asked.pending - {KeyOfExchange()} == map[];
    assert asked.(pending := map[]) == s;
    PlainResolve(name, ip);
    assert m.answers == [Answer(name, true, 1, 60, ABody(ip))];
    OneRemembered(s, name, ip);
  }

  lemma PlainResolve(name: string, ip: Bytes4)
    ensures Resolve([Answer(name, true, 1, 60, ABody(ip))], name, {}, 0, 300) == Some((name, 300))
  {
    var answers := [Answer(name, true, 1, 60, ABody(ip))];
    assert Cnames(answers[1..], name, "", 300) == Some(("", 300));
    assert !Owned(answers[0], name);
  }

  lemma OneRemembered(s: State, name: string, ip: Bytes4)
    ensures RememberAll(s, [Answer(name, true, 1, 60, ABody(ip))], name, 1, 300, name, 0) ==
            Remember(s, V4(ip), name, 60_000_000_000)
  {
    var answers := [Answer(name, true, 1, 60, ABody(ip))];
    assert answers[..0] == [];
    assert Found(answers[0], name, 1, 300, 0) == Some((V4(ip), 60_000_000_000));
    hide Remember;
  }

  /** The root's name is the empty string that the loop takes for "none yet": after
      the root and one other name led to the same address, whether the other name is
      returned is left to the map's order. */
  lemma RootMakesOrderShow(ip: Bytes4)
    ensures var (q, a) := Exchange("", ip);
            var (q', a') := Exchange("a.b", ip);
            CanAnswer(Run([q, a, q', a']), V4(ip), 1, "a.b") && CanAnswer(Run([q, a, q', a']), V4(ip), 1, "")
  {
    var (q, a) := Exchange("", ip);
    var (q', a') := Exchange("a.b", ip);
    var names := map["" := 60_000_000_000, "a.b" := 60_000_000_000];
    TwoExchanges(ip);
    hide Run, Exchange;
    var s := Run([q, a, q', a']);
    assert Live(names, 1).Keys == {"", "a.b"};
    assert "a.b" != "";
    TwoOrders(Live(names, 1).Keys, "a.b");
    ScanValue(["", "a.b"]);
    ScanValue(["a.b", ""]);
    hide Scan, Live, Order;
    assert EntryOf(s, V4(ip)) == Names(names, None);
  }

  lemma TwoExchanges(ip: Bytes4)
    ensures var (q, a) := Exchange("", ip);
            var (q', a') := Exchange("a.b", ip);
            EntryOf(Run([q, a, q', a']), V4(ip)) == Names(map["" := 60_000_000_000, "a.b" := 60_000_000_000], None)
  {
    var (q, a) := Exchange("", ip);
    var (q', a') := Exchange("a.b", ip);
    var es := [q, a, q', a'];
    RunFour(q, a, q', a');
    assert Pruned(Init(), 0) == Init();
    ExchangeAdds(Init(), "", ip);
    var s := Step(Step(Init(), q), a);
    assert s.addresses == map[V4(ip) := Names(map["" := 60_000_000_000], None)];
    assert s.pending == map[];
    OnePruned(s, V4(ip));
    hide Exchange, Step, Run, Pruned;
    ExchangeAdds(s, "a.b", ip);
  }

  lemma OnePruned(s: State, ip: Addr)
    requires s.pending == map[] && s.addresses == map[ip := Names(map["" := 60_000_000_000], None)]
    ensures Pruned(s, 0) == s
  {
    var names := map["" := 60_000_000_000];
    assert Live(names, 0) == names;
    assert "" in Live(names, 0);
    assert KeepEntry(s.addresses[ip], 0);
  }

  lemma RunFour(a: Event, b: Event, c: Event, d: Event)
    ensures Run([a, b, c, d]) == Step(Step(Step(Step(Init(), a), b), c), d)
  {
    hide Step;
    assert [a, b, c, d][..3] == [a, b, c] && [a, b, c][..2] == [a, b] && [a, b][..1] == [a] && [a][..0] == [];
    assert Run([]) == Init();
    assert Run([a]) == Step(Init(), a);
    assert Run([a, b]) == Step(Run([a]), b);
    assert Run([a, b, c]) == Step(Run([a, b]), c);
  }

  // ---- The object ----

  class DnsAssociations {
    const lower: string -> string
    var pending: map<Key, Question>
    var addresses: map<Addr, Names>
    ghost var log: seq<Record>

    ghost function Abs(): State
      reads this
    {
      State(pending, addresses, log)
    }

    constructor (lower: string -> string)
      ensures Abs() == Init() && this.lower == lower
    {
      this.lower, pending, addresses, log := lower, map[], map[], [];
    }

    /** Whatever the order of the two maps. */
    method Prune(now: int)
      modifies this`pending, this`addresses
      ensures Abs() == Pruned(old(Abs()), now)
    {
      hide KeepEntry, Live;
      ghost var s := Abs();
      PrunePending(now);
      PruneAddresses(now);
    }

    method PruneAddresses(now: int)
      modifies this`addresses
      ensures addresses == Pruned(old(Abs()), now).addresses
    {
      ghost var s := Abs();
      var todo := addresses.Keys;
      ghost var all := addresses;
      hide Live, KeepEntry;
      while todo != {}
        invariant todo <= all.Keys && addresses.Keys <= all.Keys
        invariant forall ip :: ip in todo ==> ip in addresses && addresses[ip] == all[ip]
        invariant forall ip :: ip in all && ip !in todo ==> (ip in addresses <==> KeepEntry(all[ip], now))
        invariant forall ip :: ip in addresses && ip !in todo ==> addresses[ip] == all[ip].(names := Live(all[ip].names, now))
        decreases |todo|
      {
        var ip :| ip in todo;
        todo := todo - {ip};
        var names := PruneNames(addresses[ip].names, now);
        KeptByLength(all[ip], now);
        if |names| == 0 && !After(addresses[ip].ambiguousUntil, now) {
          addresses := addresses - {ip};
        } else {
          addresses := addresses[ip := addresses[ip].(names := names)];
        }
      }
    }

    method PrunePending(now: int)
      modifies this`pending
      ensures pending == Pruned(old(Abs()), now).pending
    {
      var todo := pending.Keys;
      ghost var all := pending;
      while todo != {}
        invariant todo <= pending.Keys <= all.Keys
        invariant forall k :: k in pending ==> pending[k] == all[k]
        invariant forall k :: k in all && k !in todo ==> (k in pending <==> all[k].expires > now)
        decreases |todo|
      {
        var k :| k in todo;
        todo := todo - {k};
        if pending[k].expires <= now {
          pending := pending - {k};
        }
      }
    }

    /** Observing a query. */
    method QueryProtocol(protocol: Protocol, client: AddrPort, server: AddrPort, raw: Option<Message>, now: int)
      modifies this`pending, this`addresses
      ensures Abs() == Step(old(Abs()), Query(protocol, client, server, Unpacked(lower, raw), now))
    {
      hide Pruned;
      if server.port != 53 || raw.None? {
        return;
      }
      var m := Canonical(lower, raw.value);
      if m.response || m.opCode != 0 || |m.questions| != 1 {
        return;
      }
      var q := m.questions[0];
      if !q.inet || (q.kind != 1 && q.kind != 28) {
        return;
      }
      Prune(now);
      if |pending| >= 4096 {
        return;
      }
      pending := pending[Key(client, server, m.id, protocol) := Question(q.name, q.kind, now + 10_000_000_000)];
    }

    /** Observing a response: what it records is followed up in its answers. */
    method ResponseProtocol(protocol: Protocol, server: AddrPort, client: AddrPort, raw: Option<Message>, now: int)
      modifies this
      ensures Abs() == Step(old(Abs()), Response(protocol, server, client, Unpacked(lower, raw), now))
    {
      hide Pruned, Resolve, RememberAll;
      if server.port != 53 || raw.None? {
        return;
      }
      var m := Canonical(lower, raw.value);
      if !m.response || m.opCode != 0 || m.truncated || !m.success || |m.questions| != 1 {
        return;
      }
      var key := Key(client, server, m.id, protocol);
      var q := m.questions[0];
      if key !in pending {
        return;
      }
      var p := pending[key];
      if p.expires <= now || p.name != q.name || p.kind != q.kind || !q.inet {
        return;
      }
      pending := pending - {key};
      Prune(now);
      var found := FollowCnames(m.answers, p.name);
      if found.None? {
        return;
      }
      RecordAnswers(m.answers, found.value.0, p.kind, found.value.1, p.name, now);
    }

    method RecordAnswers(answers: seq<Answer>, owner: string, kind: uint16, ttl: uint32, name: string, now: int)
      modifies this`addresses, this`log
      ensures Abs() == RememberAll(old(Abs()), answers, owner, kind, ttl, name, now)
    {
      hide Found, Remember;
      var n := 0;
      assert answers[..0] == [];
      while n < |answers|
        invariant n <= |answers| && Abs() == RememberAll(old(Abs()), answers[..n], owner, kind, ttl, name, now)
      {
        var found := Found(answers[n], owner, kind, ttl, now);
        assert answers[..n + 1][..n] == answers[..n] && answers[..n + 1][n] == answers[n];
        if found.Some? {
          RememberName(found.value.0, name, found.value.1);
        }
        n := n + 1;
      }
      assert answers[..n] == answers;
    }

    /** remember: at most eight names an address; a ninth makes it ambiguous. */
    method RememberName(ip: Addr, name: string, expires: int)
      modifies this`addresses, this`log
      ensures Abs() == Remember(old(Abs()), ip, name, expires)
    {
      if ip !in addresses {
        if |addresses| >= 4096 {
          return;
        }
        addresses := addresses[ip := Names(map[], None)];
      }
      var e := addresses[ip];
      if name !in e.names && |e.names| >= 8 {
        log := log + [Record(ip, name, expires, false)];
        if e.ambiguousUntil.None? || expires > e.ambiguousUntil.value {
          addresses := addresses[ip := e.(ambiguousUntil := Some(expires))];
        }
        return;
      }
      log := log + [Record(ip, name, expires, true)];
      addresses := addresses[ip := e.(names := e.names[name := expires])];
    }

    /** lookup, in an order of the names that nobody controls. */
    method LookupName(ip: Addr, now: int) returns (name: string, ghost dropped: set<string>)
      modifies this`addresses
      ensures Abs() == Step(old(Abs()), Lookup(ip, dropped, now))
      ensures CanAnswer(old(Abs()), ip.Unmap(), now, name)
    {
      var key := ip.Unmap();
      name, dropped := "", {};
      if key !in addresses {
        assert Order([], {}) && Scan([], "") == "";
        assert Live(map[], now).Keys == {};
        return;
      }
      if After(addresses[key].ambiguousUntil, now) {
        return;
      }
      ghost var names := addresses[key].names;
      var left;
      ghost var order;
      name, left, dropped, order := ScanNames(addresses[key].names, now);
      hide Scan, Live;
      assert left == map n | n in names && (names[n] > now || n !in dropped) :: names[n];
      addresses := addresses[key := addresses[key].(names := left)];
    }
  }

  /** lookup's loop: deletes the expired names it meets and stops at a second live
      one; the order it meets them in is any. */
  method ScanNames(names: map<string, int>, now: int)
    returns (name: string, left: map<string, int>, ghost dropped: set<string>, ghost order: seq<string>)
    ensures Order(order, Live(names, now).Keys) && name == Scan(order, "")
    ensures Remains(names, left, dropped, now)
  {
    name, left, dropped, order := "", names, {}, [];
    var todo := names.Keys;
    ghost var live := Live(names, now).Keys;
    assert Order([], {}) && live - todo == {} && Shape([], "") && Remains(names, names, {}, now);
    hide Scan, Live, Order, Shape, Remains;
    while todo != {}
      invariant todo <= left.Keys && Remains(names, left, dropped, now)
      invariant Order(order, live - todo)
      invariant Shape(order, name)
      decreases |todo|
    {
      var candidate :| candidate in todo;
      ghost var seen := live - todo;
      OneLess(names, left, dropped, now, todo, candidate);
      todo := todo - {candidate};
      if left[candidate] <= now {
        RemainsLess(names, left, dropped, now, candidate);
        left, dropped := left - {candidate}, dropped + {candidate};
        continue;
      }
      assert live - todo == seen + {candidate};
      OrderMore(order, seen, candidate);
      NotMet(order, seen, candidate);
      if name != "" {
        ghost var before := order;
        order := OrderRest(before + [candidate], live - todo, live);
        Stopped(before, candidate, order, name, live);
        name := "";
        return;
      }
      ShapeMore(order, candidate);
      order := order + [candidate];
      name := candidate;
    }
    assert live - todo == live;
    Finished(order, name, live);
  }

  lemma OneLess(names: map<string, int>, left: map<string, int>, dropped: set<string>, now: int, todo: set<string>, n: string)
    requires Remains(names, left, dropped, now) && n in todo && todo <= left.Keys
    ensures var live := Live(names, now).Keys;
            live - (todo - {n}) == (if left[n] > now then live - todo + {n} else live - todo) && n !in live - todo
  {
  }

  /** The map without the expired names met so far. */
  ghost predicate Remains(names: map<string, int>, left: map<string, int>, dropped: set<string>, now: int) {
    && (forall n :: n in dropped ==> n in names && names[n] <= now)
    && left == map n | n in names && n !in dropped :: names[n]
  }

  lemma RemainsLess(names: map<string, int>, left: map<string, int>, dropped: set<string>, now: int, n: string)
    requires Remains(names, left, dropped, now) && n in left && left[n] <= now
    ensures Remains(names, left - {n}, dropped + {n}, now)
  {
  }

  /** The live names met while `name` is what the loop holds. */
  ghost predicate Shape(order: seq<string>, name: string) {
    if name == "" then order == [] || order == [""] else order == [name] || order == ["", name]
  }

  lemma ShapeMore(order: seq<string>, candidate: string)
    requires Shape(order, "") && candidate !in order
    ensures Shape(order + [candidate], candidate)
  {
    assert order == [""] ==> order[0] in order;
  }

  lemma Finished(order: seq<string>, name: string, live: set<string>)
    requires Order(order, live) && Shape(order, name)
    ensures Scan(order, "") == name
  {
    ScanValue(order);
  }

  lemma Stopped(before: seq<string>, candidate: string, order: seq<string>, name: string, live: set<string>)
    requires Order(order, live) && name != "" && Shape(before, name) && before + [candidate] <= order
    ensures Scan(order, "") == ""
  {
    ScanValue(order);
    assert before == order[..|before|];
  }

  lemma NotMet(order: seq<string>, names: set<string>, n: string)
    requires Order(order, names) && n !in names
    ensures n !in order
  {
  }

  lemma OrderMore(order: seq<string>, names: set<string>, n: string)
    requires Order(order, names) && n !in names
    ensures Order(order + [n], names + {n})
  {
    assert forall i :: 0 <= i < |order| ==> order[i] in order;
  }

  lemma {:induction false} OrderRest(order: seq<string>, some: set<string>, all: set<string>) returns (whole: seq<string>)
    requires Order(order, some) && some <= all
    ensures Order(whole, all) && order <= whole
    decreases all - some
  {
    whole := order;
    if n :| n in all && n !in some {
      OrderMore(order, some, n);
      whole := OrderRest(order + [n], some + {n}, all);
    } else {
      assert some == all;
    }
  }

  function Unpacked(lower: string -> string, raw: Option<Message>): Option<Message> {
    if raw.Some? then Some(Canonical(lower, raw.value)) else None
  }

  /** The loop's way through one map of names. */
  method PruneNames(names: map<string, int>, now: int) returns (r: map<string, int>)
    ensures r == Live(names, now)
  {
    r := names;
    var todo := names.Keys;
    while todo != {}
      invariant todo <= r.Keys <= names.Keys
      invariant forall n :: n in r ==> r[n] == names[n]
      invariant forall n :: n in names && n !in todo ==> (n in r <==> names[n] > now)
      decreases |todo|
    {
      var n :| n in todo;
      todo := todo - {n};
      if r[n] <= now {
        r := r - {n};
      }
    }
  }

  lemma KeptByLength(e: Names, now: int)
    ensures KeepEntry(e, now) <==> |Live(e.names, now)| != 0 || After(e.ambiguousUntil, now)
  {
    hide Live, After;
    if |Live(e.names, now)| == 0 {
      assert Live(e.names, now) == map[];
    }
  }
}
