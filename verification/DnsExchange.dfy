/** What the name index promises for a DNS exchange it sees: the query and its response,
    spelled out field by field, leave their records, whatever comes in between. */
module DnsExchange {
  import opened Bytes
  import opened Addresses
  import opened Sets
  import opened DnsNames

  /** A standard query for one IPv4 or IPv6 address in the Internet class. */
  predicate Asking(q: Event) {
    && q.Query? && q.server.port == 53 && q.msg.Some?
    && var m := q.msg.value;
       !m.response && m.opCode == 0 && |m.questions| == 1 && m.questions[0].inet && (m.questions[0].kind == 1 || m.questions[0].kind == 28)
  }

  /** A complete, successful response to it, within ten seconds. */
  predicate Answering(q: Event, a: Event)
    requires Asking(q)
  {
    && a.Response? && a.protocol == q.protocol && a.client == q.client && a.server == q.server && a.msg.Some?
    && q.now <= a.now < q.now + 10_000_000_000
    && var m := a.msg.value;
       m.response && m.opCode == 0 && !m.truncated && m.success && m.id == q.msg.value.id && m.questions == q.msg.value.questions
  }

  /** A message of the same two endpoints, protocol and number. */
  predicate Rivals(e: Event, q: Event)
    requires Asking(q)
  {
    (e.Query? || e.Response?) && e.protocol == q.protocol && e.client == q.client && e.server == q.server
    && e.msg.Some? && e.msg.value.id == q.msg.value.id
  }

  /** The address in an answer. */
  function AddressIn(b: Body): Option<Addr> {
    match b
    case ABody(a) => Some(V4(a))
    case AAAABody(a) => Some(if a[..12] == [0, 0, 0, 0, 0, 0, 0, 0, 0, 0, 0xff, 0xff] then V4(a[12..]) else V6(a, ""))
    case Cname(_) => None
    case OtherBody => None
  }

  /** Answer i ends a plain CNAME chain from the name asked for; it and the chain may be
      kept for `seconds`, the least of their TTLs and 300. */
  ghost predicate Ends(answers: seq<Answer>, q: Asked, path: seq<string>, i: nat, ip: Addr, seconds: nat) {
    && PlainChain(answers, path) && path[0] == q.name
    && i < |answers| && answers[i].inet && answers[i].name == path[|path| - 1] && answers[i].kind == q.kind
    && AddressIn(answers[i].body) == Some(ip)
    && 0 < seconds <= 300 && seconds <= answers[i].ttl
    && (forall k, j :: 0 <= k < |answers| && 0 <= j < |path| && Owned(answers[k], path[j]) ==> seconds <= answers[k].ttl)
    && (seconds == 300 || seconds == answers[i].ttl || exists k, j :: 0 <= k < |answers| && 0 <= j < |path| && Owned(answers[k], path[j]) && seconds == answers[k].ttl)
  }

  function KeyOf(q: Event): Key
    requires Asking(q)
  {
    Key(q.client, q.server, q.msg.value.id, q.protocol)
  }

  // ---- The question stays ----

  /** The question of q is pending. */
  predicate Waiting(s: State, q: Event)
    requires Asking(q)
  {
    KeyOf(q) in s.pending
    && s.pending[KeyOf(q)] == Question(q.msg.value.questions[0].name, q.msg.value.questions[0].kind, q.now + 10_000_000_000)
  }

  lemma AskedWaits(s: State, q: Event)
    requires Asking(q) && |set k | k in s.pending && s.pending[k].expires > q.now| < 4096
    ensures Waiting(Step(s, q), q)
  {
    var p := Pruned(s, q.now);
    assert p.pending.Keys == set k | k in s.pending && s.pending[k].expires > q.now;
    assert |p.pending| == |p.pending.Keys|;
  }

  lemma {:induction false} RememberAllPending(s: State, answers: seq<Answer>, owner: string, kind: uint16, ttl: uint32, name: string, now: int)
    ensures RememberAll(s, answers, owner, kind, ttl, name, now).pending == s.pending
  {
    RecordsAdded(s, answers, owner, kind, ttl, name, now);
  }

  lemma StaysWaiting(s: State, q: Event, e: Event)
    requires Asking(q) && Waiting(s, q) && !Rivals(e, q) && e.now < q.now + 10_000_000_000
    ensures Waiting(Step(s, e), q)
  {
    hide KeepEntry, Live, Resolve, RememberAll;
    match e
    case Query(protocol, client, server, msg, now) =>
    case Response(protocol, server, client, msg, now) =>
      if GoodResponse(server, msg) {
        var key := Key(client, server, msg.value.id, protocol);
        if key in s.pending && Matches(s.pending[key], msg.value.questions[0], now) {
          var r := Resolve(msg.value.answers, s.pending[key].name, {}, 0, 300);
          if r.Some? {
            RememberAllPending(Pruned(s.(pending := s.pending - {key}), now), msg.value.answers, r.value.0, s.pending[key].kind, r.value.1, s.pending[key].name, now);
          }
        }
      }
    case Lookup(ip, dropped, now) =>
  }

  lemma {:induction false} WaitsThrough(es: seq<Event>, q: Event, between: seq<Event>)
    requires Asking(q) && Waiting(Run(es), q)
    requires forall i :: 0 <= i < |between| ==> !Rivals(between[i], q) && between[i].now < q.now + 10_000_000_000
    ensures Waiting(Run(es + between), q)
    decreases |between|
  {
    hide Step, Waiting, Rivals;
    if between == [] {
      assert es + between == es;
    } else {
      var n := |between| - 1;
      WaitsThrough(es, q, between[..n]);
      assert (es + between)[..|es + between| - 1] == es + between[..n];
      StaysWaiting(Run(es + between[..n]), q, between[n]);
    }
  }

  // ---- The response leaves its records ----

  lemma {:induction false} PlainChainTtl(answers: seq<Answer>, path: seq<string>, seen: set<string>, depth: nat, ttl: uint32)
    requires PlainChain(answers, path) && depth + |path| <= 16
    requires forall i :: 0 <= i < |path| ==> path[i] !in seen
    ensures var r := Resolve(answers, path[0], seen, depth, ttl);
            r.Some? && r.value.0 == path[|path| - 1] && Chain(answers, path, ttl, r.value.1)
    decreases |path|
  {
    ChainIsFollowed(answers, path, seen, depth, ttl);
    CnamesFound(answers, path[0], "", ttl);
    if |path| == 1 {
      OneTarget(answers, path[0], "", "", ttl);
      hide Cnames, LeastTtl, Chain;
      assert path == [path[0]];
      ChainOne(answers, path[0], ttl, Cnames(answers, path[0], "", ttl).value.1);
    } else {
      OneTarget(answers, path[0], path[1], "", ttl);
      var rest, least := path[1..], Cnames(answers, path[0], "", ttl).value.1;
      PlainTail(answers, path);
      TargetLinked(answers, path[0], path[1]);
      hide Cnames, LeastTtl, Chain, Owned, PlainChain, Linked;
      PlainChainTtl(answers, rest, seen + {path[0]}, depth + 1, least);
      hide Resolve;
      assert path == [path[0]] + rest;
      NextTtl(answers, path, seen, depth, ttl);
      LeastBelow(answers, path[0], ttl, least);
      ChainCons(answers, path[0], rest, ttl, least, Resolve(answers, path[1], seen + {path[0]}, depth + 1, least).value.1);
    }
  }

  lemma TargetLinked(answers: seq<Answer>, name: string, target: string)
    requires OnlyTarget(answers, name, target)
    ensures Linked(answers, name, target)
  {
  }

  lemma LeastBelow(answers: seq<Answer>, name: string, start: uint32, least: uint32)
    requires LeastTtl(answers, name, start, least)
    ensures least <= start
  {
  }

  lemma NextTtl(answers: seq<Answer>, path: seq<string>, seen: set<string>, depth: nat, ttl: uint32)
    requires |path| > 1 && depth < 16 && path[0] !in seen && path[1] != ""
    requires Cnames(answers, path[0], "", ttl).Some? && Cnames(answers, path[0], "", ttl).value.0 == path[1]
    ensures Resolve(answers, path[0], seen, depth, ttl)
            == Resolve(answers, path[1], seen + {path[0]}, depth + 1, Cnames(answers, path[0], "", ttl).value.1)
  {
    hide Cnames;
  }

  lemma AddressIs(b: Body)
    ensures AddressIn(b) == if Address(b) == NoAddr then None else Some(Address(b))
  {
    if b.AAAABody? {
      assert b.aaaa[..12] == b.aaaa[..10] + [b.aaaa[10], b.aaaa[11]];
      assert Zeros(10) == [0, 0, 0, 0, 0, 0, 0, 0, 0, 0];
    }
  }

  lemma {:induction false} RememberAllSize(s: State, answers: seq<Answer>, owner: string, kind: uint16, ttl: uint32, name: string, now: int)
    ensures |RememberAll(s, answers, owner, kind, ttl, name, now).addresses| <= |s.addresses| + |answers|
  {
    hide Found;
    if answers != [] {
      var n := |answers| - 1;
      RememberAllSize(s, answers[..n], owner, kind, ttl, name, now);
      var before := RememberAll(s, answers[..n], owner, kind, ttl, name, now);
      var found := Found(answers[n], owner, kind, ttl, now);
      hide RememberAll;
      if found.Some? {
        RememberSize(before, found.value.0, name, found.value.1);
      }
    }
  }

  lemma RememberSize(s: State, ip: Addr, name: string, expires: int)
    ensures |Remember(s, ip, name, expires).addresses| <= |s.addresses| + 1
    ensures |s.addresses| < 4096 ==>
              var log := Remember(s, ip, name, expires).log;
              |log| == |s.log| + 1 && log[..|s.log|] == s.log && log[|s.log|].ip == ip && log[|s.log|].name == name && log[|s.log|].expires == expires
  {
    var e := EntryOf(s, ip);
    MapUpdateSize(s.addresses, ip, e.(ambiguousUntil := Later(e.ambiguousUntil, expires)));
    MapUpdateSize(s.addresses, ip, e.(names := e.names[name := expires]));
  }

  /** Some record from number `from` on says this. */
  ghost predicate Recorded(log: seq<Record>, from: nat, ip: Addr, name: string, expires: int) {
    exists j :: from <= j < |log| && log[j].ip == ip && log[j].name == name && log[j].expires == expires
  }

  lemma RecordedLonger(log: seq<Record>, more: seq<Record>, from: nat, ip: Addr, name: string, expires: int)
    requires Recorded(log, from, ip, name, expires) && |log| <= |more| && more[..|log|] == log
    ensures Recorded(more, from, ip, name, expires)
  {
    var j :| from <= j < |log| && log[j].ip == ip && log[j].name == name && log[j].expires == expires;
    assert more[j] == more[..|log|][j];
  }

  lemma {:induction false} AnswerRecorded(s: State, answers: seq<Answer>, owner: string, kind: uint16, ttl: uint32, name: string, now: int, i: nat)
    requires i < |answers| && Found(answers[i], owner, kind, ttl, now).Some? && |s.addresses| + i < 4096
    ensures var (ip, expires) := Found(answers[i], owner, kind, ttl, now).value;
            Recorded(RememberAll(s, answers, owner, kind, ttl, name, now).log, |s.log|, ip, name, expires)
    decreases |answers|
  {
    hide Found, Remember;
    var n := |answers| - 1;
    var before := RememberAll(s, answers[..n], owner, kind, ttl, name, now);
    var after := RememberAll(s, answers, owner, kind, ttl, name, now);
    var (ip, expires) := Found(answers[i], owner, kind, ttl, now).value;
    if i < n {
      AnswerRecorded(s, answers[..n], owner, kind, ttl, name, now, i);
      LastRecord(s, before, answers, owner, kind, ttl, name, now, after);
      hide RememberAll;
      RecordedLonger(before.log, after.log, |s.log|, ip, name, expires);
    } else {
      RecordsAdded(s, answers[..n], owner, kind, ttl, name, now);
      RememberAllSize(s, answers[..n], owner, kind, ttl, name, now);
      hide RememberAll;
      RememberSize(before, ip, name, expires);
      assert after.log[|before.log|].ip == ip;
    }
  }

  lemma PrunedFewer(s: State, now: int)
    ensures |Pruned(s, now).addresses| <= |s.addresses| && Pruned(s, now).log == s.log
  {
    hide KeepEntry, Live;
    SubsetSize(Pruned(s, now).addresses.Keys, s.addresses.Keys);
  }

  /** The step of the response. */
  lemma AnsweredRecords(s: State, q: Event, a: Event, path: seq<string>, i: nat, ip: Addr, seconds: nat)
    requires Asking(q) && Waiting(s, q) && Answering(q, a) && |s.addresses| + i < 4096
    requires Ends(a.msg.value.answers, q.msg.value.questions[0], path, i, ip, seconds)
    ensures Recorded(Step(s, a).log, |s.log|, ip, q.msg.value.questions[0].name, a.now + seconds * 1_000_000_000)
  {
    var answers, asked, key := a.msg.value.answers, q.msg.value.questions[0], KeyOf(q);
    StepIsAnswered(s, q, a);
    PlainChainTtl(answers, path, {}, 0, 300);
    AddressIs(answers[i].body);
    LeastIs(answers, asked, path, i, ip, seconds, Resolve(answers, path[0], {}, 0, 300).value.1);
    hide Step, Resolve, Chain, PlainChain, Owned, RememberAll, KeepEntry, Live;
    var (owner, ttl) := Resolve(answers, asked.name, {}, 0, 300).value;
    var s1 := s.(pending := s.pending - {key});
    PrunedFewer(s1, a.now);
    hide Pruned;
    AnswerRecorded(Pruned(s1, a.now), answers, owner, asked.kind, ttl, asked.name, a.now, i);
  }

  lemma StepIsAnswered(s: State, q: Event, a: Event)
    requires Asking(q) && Waiting(s, q) && Answering(q, a)
    ensures KeyOf(q) in s.pending && Step(s, a) == Answered(s, KeyOf(q), a.msg.value, a.now)
    ensures s.pending[KeyOf(q)].name == q.msg.value.questions[0].name && s.pending[KeyOf(q)].kind == q.msg.value.questions[0].kind
  {
    hide Answered;
  }

  lemma LeastIs(answers: seq<Answer>, q: Asked, path: seq<string>, i: nat, ip: Addr, seconds: nat, least: uint32)
    requires Ends(answers, q, path, i, ip, seconds) && Chain(answers, path, 300, least)
    ensures MinTtl(least, answers[i].ttl) == seconds
  {
    hide PlainChain, Owned, Linked;
  }

  /** A room of 4096 for pending questions. */
  predicate RoomToAsk(s: State, now: int) {
    |set k | k in s.pending && s.pending[k].expires > now| < 4096
  }

  /** Whatever was seen before, and whatever is seen in between that is no message for the
      same endpoints, protocol and number: a query for an A or AAAA record and its response
      leave a record of the name for every address at the end of the name's chain. */
  lemma ExchangeRecorded(es: seq<Event>, q: Event, between: seq<Event>, a: Event, path: seq<string>, i: nat, ip: Addr, seconds: nat)
    requires Asking(q) && RoomToAsk(Run(es), q.now) && Answering(q, a)
    requires forall k :: 0 <= k < |between| ==> !Rivals(between[k], q) && between[k].now <= a.now
    requires Ends(a.msg.value.answers, q.msg.value.questions[0], path, i, ip, seconds)
    requires |Run(es + [q] + between).addresses| + i < 4096
    ensures Recorded(Run(es + [q] + between + [a]).log, |Run(es + [q] + between).log|, ip,
                     q.msg.value.questions[0].name, a.now + seconds * 1_000_000_000)
  {
    assert (es + [q])[..|es|] == es;
    AskedWaits(Run(es), q);
    hide Run, Step, Waiting, Rivals, Ends;
    RunMore(es, q);
    WaitsThrough(es + [q], q, between);
    RunMore(es + [q] + between, a);
    AnsweredRecords(Run(es + [q] + between), q, a, path, i, ip, seconds);
  }

  lemma RunMore(es: seq<Event>, e: Event)
    ensures Run(es + [e]) == Step(Run(es), e)
  {
    assert (es + [e])[..|es|] == es;
  }

  // ---- And its name is found ----

  lemma {:induction false} LatestAfter(log: seq<Record>, ip: Addr, name: string, j: nat)
    requires j < |log| && log[j].ip == ip && log[j].name == name
    ensures Latest(log, ip, name).Some? && exists k :: j <= k < |log| && log[k] == Latest(log, ip, name).value
  {
    var n := |log| - 1;
    if !(log[n].ip == ip && log[n].name == name) {
      LatestAfter(log[..n], ip, name, j);
      var k :| j <= k < n && log[..n][k] == Latest(log[..n], ip, name).value;
      assert log[k] == log[..n][k];
    }
  }

  predicate Final(a: Answer, q: Asked, owner: string, ip: Addr) {
    a.inet && a.name == owner && a.kind == q.kind && AddressIn(a.body) == Some(ip)
  }

  /** No final answer with the address has a shorter TTL than answer i. */
  ghost predicate Shortest(answers: seq<Answer>, q: Asked, path: seq<string>, i: nat, ip: Addr)
    requires path != [] && i < |answers|
  {
    forall k :: 0 <= k < |answers| && Final(answers[k], q, path[|path| - 1], ip) ==> answers[i].ttl <= answers[k].ttl
  }

  /** The last record of the name for the address, after the response, is no older. */
  lemma LatestIsNew(s: State, q: Event, a: Event, path: seq<string>, i: nat, ip: Addr, seconds: nat, now: int)
    requires Asking(q) && Waiting(s, q) && Answering(q, a) && |s.addresses| + i < 4096
    requires Ends(a.msg.value.answers, q.msg.value.questions[0], path, i, ip, seconds)
    requires Shortest(a.msg.value.answers, q.msg.value.questions[0], path, i, ip) && now < a.now + seconds * 1_000_000_000
    ensures RecordedLive(Step(s, a).log, ip, q.msg.value.questions[0].name, now)
  {
    hide Step, Resolve, Chain, PlainChain, Owned, RememberAll, KeepEntry, Live, Pruned, Latest, RecordedLive, Recorded, Waiting, Ends;
    var answers, asked, key := a.msg.value.answers, q.msg.value.questions[0], KeyOf(q);
    AnsweredRecords(s, q, a, path, i, ip, seconds);
    StepIsAnswered(s, q, a);
    EndsPlain(answers, asked, path, i, ip, seconds);
    PlainChainTtl(answers, path, {}, 0, 300);
    var (owner, ttl) := Resolve(answers, asked.name, {}, 0, 300).value;
    LeastIs(answers, asked, path, i, ip, seconds, ttl);
    var s1 := s.(pending := s.pending - {key});
    PrunedFewer(s1, a.now);
    NoneShorter(answers, asked, owner, path, i, ip, ttl, a.now);
    LatestOfNew(Pruned(s1, a.now), answers, owner, asked.kind, ttl, asked.name, a.now, ip, a.now + seconds * 1_000_000_000, now);
  }

  lemma EndsPlain(answers: seq<Answer>, q: Asked, path: seq<string>, i: nat, ip: Addr, seconds: nat)
    requires Ends(answers, q, path, i, ip, seconds)
    ensures PlainChain(answers, path) && 0 < |path| <= 16 && path[0] == q.name && i < |answers|
  {
    hide Owned;
  }

  lemma NoneShorter(answers: seq<Answer>, q: Asked, owner: string, path: seq<string>, i: nat, ip: Addr, ttl: uint32, at: int)
    requires path != [] && owner == path[|path| - 1] && i < |answers| && Shortest(answers, q, path, i, ip)
    ensures forall n :: 0 <= n < |answers| ==>
              var f := Found(answers[n], owner, q.kind, ttl, at);
              f.Some? && f.value.0 == ip ==> f.value.1 >= at + MinTtl(ttl, answers[i].ttl) as int * 1_000_000_000
  {
    forall n | 0 <= n < |answers| && Found(answers[n], owner, q.kind, ttl, at).Some? && Found(answers[n], owner, q.kind, ttl, at).value.0 == ip
      ensures Found(answers[n], owner, q.kind, ttl, at).value.1 >= at + MinTtl(ttl, answers[i].ttl) as int * 1_000_000_000
    {
      AddressIs(answers[n].body);
      assert Final(answers[n], q, path[|path| - 1], ip);
      NoShorter(ttl, answers[i].ttl, answers[n].ttl);
    }
  }

  lemma LatestOfNew(s: State, answers: seq<Answer>, owner: string, kind: uint16, ttl: uint32, name: string, at: int, ip: Addr, expires: int, now: int)
    requires Recorded(RememberAll(s, answers, owner, kind, ttl, name, at).log, |s.log|, ip, name, expires) && now < expires
    requires forall n :: 0 <= n < |answers| ==>
               var f := Found(answers[n], owner, kind, ttl, at); f.Some? && f.value.0 == ip ==> f.value.1 >= expires
    ensures RecordedLive(RememberAll(s, answers, owner, kind, ttl, name, at).log, ip, name, now)
  {
    hide RememberAll, Latest, Found;
    RecordsAdded(s, answers, owner, kind, ttl, name, at);
    var log := RememberAll(s, answers, owner, kind, ttl, name, at).log;
    var j :| |s.log| <= j < |log| && log[j].ip == ip && log[j].name == name && log[j].expires == expires;
    LatestAfter(log, ip, name, j);
    var k :| j <= k < |log| && log[k] == Latest(log, ip, name).value;
    LatestIsOf(log, ip, name);
    var n :| 0 <= n < |answers| && Found(answers[n], owner, kind, ttl, at) == Some((log[k].ip, log[k].expires));
  }

  lemma NoShorter(least: uint32, x: uint32, y: uint32)
    requires x <= y
    ensures MinTtl(least, x) <= MinTtl(least, y)
  {
  }

  /** Until it expires, a lookup of the address right after the exchange gives the name
      that was asked for, unless another live name or a refusal makes it ambiguous. */
  lemma ExchangeFound(es: seq<Event>, q: Event, between: seq<Event>, a: Event, path: seq<string>, i: nat, ip: Addr, seconds: nat,
                      now: int, answer: string)
    requires Asking(q) && RoomToAsk(Run(es), q.now) && Answering(q, a)
    requires forall k :: 0 <= k < |between| ==> !Rivals(between[k], q) && between[k].now <= a.now
    requires Ends(a.msg.value.answers, q.msg.value.questions[0], path, i, ip, seconds)
    requires Shortest(a.msg.value.answers, q.msg.value.questions[0], path, i, ip)
    requires |Run(es + [q] + between).addresses| + i < 4096
    requires var all, name := es + [q] + between + [a], q.msg.value.questions[0].name;
             && Clock(all, now) && now < a.now + seconds * 1_000_000_000
             && CanAnswer(Run(all), ip, now, answer) && !RefusedLive(Run(all).log, ip, now)
             && forall other :: other != name ==> !RecordedLive(Run(all).log, ip, other, now)
    ensures answer == q.msg.value.questions[0].name
  {
    var all := es + [q] + between + [a];
    hide Clock, CanAnswer, RefusedLive, RecordedLive;
    assert (es + [q])[..|es|] == es;
    AskedWaits(Run(es), q);
    hide Run, Step, Waiting, Rivals, Ends, Shortest;
    RunMore(es, q);
    WaitsThrough(es + [q], q, between);
    RunMore(es + [q] + between, a);
    LatestIsNew(Run(es + [q] + between), q, a, path, i, ip, seconds, now);
    OnlyNameIsFound(all, ip, q.msg.value.questions[0].name, now, answer);
  }

  // ---- Refusals ----

  /** Every name that an address has is live. */
  ghost predicate AllLive(s: State, now: int) {
    forall ip, n :: ip in s.addresses && n in s.addresses[ip].names ==> s.addresses[ip].names[n] > now
  }

  /** Record j was refused although its expiry lies ahead: eight other names are live. */
  ghost predicate EightOthers(s: State, ip: Addr, name: string) {
    ip in s.addresses && name !in s.addresses[ip].names && |s.addresses[ip].names| == 8
  }

  lemma RememberRefuses(s: State, ip: Addr, name: string, expires: int, now: int)
    requires AllLive(s, now) && expires > now && Bounded(s)
    ensures var s' := Remember(s, ip, name, expires);
            && AllLive(s', now) && Bounded(s')
            && (forall j :: |s.log| <= j < |s'.log| && !s'.log[j].stored ==> EightOthers(s', s'.log[j].ip, s'.log[j].name))
            && forall jp, m :: EightOthers(s, jp, m) ==> EightOthers(s', jp, m)
  {
    BoundedRemember(s, ip, name, expires);
    RememberLive(s, ip, name, expires, now);
    AtMostEight(s, ip);
    RefusedNew(s, ip, name, expires);
    forall jp, m | EightOthers(s, jp, m) ensures EightOthers(Remember(s, ip, name, expires), jp, m) {
      EightStay(s, ip, name, expires, jp, m);
    }
    hide Remember, Bounded, AllLive, EightOthers;
  }

  lemma RememberLive(s: State, ip: Addr, name: string, expires: int, now: int)
    requires AllLive(s, now) && expires > now
    ensures AllLive(Remember(s, ip, name, expires), now)
  {
    hide Later;
  }

  lemma AtMostEight(s: State, ip: Addr)
    requires Bounded(s)
    ensures |EntryOf(s, ip).names| <= 8
  {
  }

  lemma RefusedNew(s: State, ip: Addr, name: string, expires: int)
    requires |EntryOf(s, ip).names| <= 8
    ensures var s' := Remember(s, ip, name, expires);
            forall j :: |s.log| <= j < |s'.log| && !s'.log[j].stored ==> EightOthers(s', s'.log[j].ip, s'.log[j].name)
  {
    hide Later;
  }

  lemma EightStay(s: State, ip: Addr, name: string, expires: int, jp: Addr, m: string)
    requires EightOthers(s, jp, m)
    ensures EightOthers(Remember(s, ip, name, expires), jp, m)
  {
    hide Later;
    if ip == jp && name in s.addresses[ip].names {
      var names := s.addresses[ip].names;
      assert names[name := expires].Keys == names.Keys;
      assert |names[name := expires]| == |names[name := expires].Keys| && |names| == |names.Keys|;
    }
  }

  lemma {:induction false} AllRefuse(s: State, answers: seq<Answer>, owner: string, kind: uint16, ttl: uint32, name: string, now: int)
    requires AllLive(s, now) && Bounded(s)
    ensures var s' := RememberAll(s, answers, owner, kind, ttl, name, now);
            && AllLive(s', now) && Bounded(s') && |s.log| <= |s'.log|
            && forall j :: |s.log| <= j < |s'.log| && !s'.log[j].stored ==> EightOthers(s', s'.log[j].ip, s'.log[j].name)
  {
    hide AllLive, Bounded, EightOthers, Remember, Found;
    if answers != [] {
      var n := |answers| - 1;
      AllRefuse(s, answers[..n], owner, kind, ttl, name, now);
      var before := RememberAll(s, answers[..n], owner, kind, ttl, name, now);
      var found := Found(answers[n], owner, kind, ttl, now);
      if found.Some? {
        FoundAhead(answers[n], owner, kind, ttl, now);
        RememberRefuses(before, found.value.0, name, found.value.1, now);
        RememberLog(before, found.value.0, name, found.value.1);
      }
    }
  }

  lemma FoundAhead(a: Answer, owner: string, kind: uint16, ttl: uint32, now: int)
    ensures Found(a, owner, kind, ttl, now).Some? ==> Found(a, owner, kind, ttl, now).value.1 > now
  {
  }

  lemma RememberLog(s: State, ip: Addr, name: string, expires: int)
    ensures var log := Remember(s, ip, name, expires).log; |s.log| <= |log| && log[..|s.log|] == s.log
  {
  }

  lemma PrunedLive(s: State, now: int)
    requires Bounded(s)
    ensures AllLive(Pruned(s, now), now) && Bounded(Pruned(s, now))
  {
    BoundedPruned(s, now);
    hide Bounded, KeepEntry;
  }

  /** A name is refused for an address only while eight other names of it are live. */
  lemma RefusedBehindEight(es: seq<Event>, a: Event, j: nat)
    requires Clock(es + [a], a.now) && a.Response?
    requires |Run(es).log| <= j < |Run(es + [a]).log| && !Run(es + [a]).log[j].stored
    ensures exists names: set<string> :: |names| == 8 && Run(es + [a]).log[j].name !in names
              && forall n :: n in names ==> RecordedLive(Run(es + [a]).log, Run(es + [a]).log[j].ip, n, a.now)
  {
    var s, s' := Run(es), Run(es + [a]);
    RunMore(es, a);
    BoundedRun(es);
    InvRun(es + [a], a.now);
    RefusedInStep(s, a, j);
    hide Run, Step, Inv, Bounded, Clock;
    var ip, name := s'.log[j].ip, s'.log[j].name;
    var names := s'.addresses[ip].names.Keys;
    assert |names| == |s'.addresses[ip].names|;
    forall n | n in names ensures RecordedLive(s'.log, ip, n, a.now) {
      LiveIsRecorded(s', ip, n, a.now);
      ShowRecorded(s'.log, ip, n, a.now);
    }
  }

  lemma RefusedInStep(s: State, a: Event, j: nat)
    requires a.Response? && Bounded(s) && |s.log| <= j < |Step(s, a).log| && !Step(s, a).log[j].stored
    ensures EightOthers(Step(s, a), Step(s, a).log[j].ip, Step(s, a).log[j].name) && AllLive(Step(s, a), a.now)
  {
    hide Resolve, RememberAll, AllLive, Bounded, EightOthers, KeepEntry, Live, Pruned;
    var key := Key(a.client, a.server, a.msg.value.id, a.protocol);
    var p := s.pending[key];
    var s1 := s.(pending := s.pending - {key});
    BoundedWithout(s, key);
    PrunedLive(s1, a.now);
    PrunedFewer(s1, a.now);
    var r := Resolve(a.msg.value.answers, p.name, {}, 0, 300);
    AllRefuse(Pruned(s1, a.now), a.msg.value.answers, r.value.0, p.kind, r.value.1, p.name, a.now);
  }
}
