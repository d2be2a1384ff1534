/** FakeIP allocation: addresses from two reserved ranges are bound to names and,
    within one run of the agent, never to another name. */
module FakeIp {
  import opened Bytes
  import opened Addresses
  import opened Sets

  /** Fifteen minutes, in nanoseconds. */
  const LEASE := 900_000_000_000

  datatype Kind = A | AAAA

  /** What an address is bound to; unscoped names have no DNS exit. */
  datatype Name = Name(host: string, kind: Kind, scope: Option<string>)

  datatype Entry = Entry(host: string, scope: string, scoped: bool, expires: int)

  datatype State = State(next4: uint32, next6: uint32, byName: map<string, Addr>, byIP: map<Addr, Entry>)

  // ---- Addresses ----

  function Range6(): seq<byte> {
    [0x20, 0x01, 0x0d, 0xb8, 0x01, 0x98, 0x00, 0x18, 0, 0, 0, 0]
  }

  function Fake4(id: nat): Addr
    requires id < 0x2_0000
  {
    V4([198, 18 + id / 0x1_0000, id / 0x100 % 0x100, id % 0x100])
  }

  function Fake6(id: uint32): Addr {
    V6(Range6() + U32(id), "")
  }

  /** 198.18.0.0/15 or 2001:db8:198:18::/96, after unmapping. */
  predicate IsFakeIP(addr: Addr) {
    match addr.Unmap()
    case NoAddr => false
    case V4(b) => b[0] == 198 && b[1] / 2 == 9
    case V6(b, zone) => zone == "" && b[..12] == Range6()
  }

  predicate WasIssued(s: State, addr: Addr) {
    IsFakeIP(addr) &&
    match addr
    case V4(b) =>
      var id := (b[1] - 18) * 0x1_0000 + b[2] as int * 0x100 + b[3];
      id != 0 && id <= s.next4
    case V6(b, _) => U32At(b, 12) != 0 && U32At(b, 12) <= s.next6
    case NoAddr => false
  }

  /** Each address of the IPv4 range is Fake4 of its number, and of no other. */
  lemma Fake4Number(a: Addr)
    requires a.V4? && IsFakeIP(a)
    ensures var id := (a.v4[1] - 18) * 0x1_0000 + a.v4[2] as int * 0x100 + a.v4[3];
            0 <= id < 0x2_0000 && Fake4(id) == a
  {
    var id := (a.v4[1] - 18) * 0x1_0000 + a.v4[2] as int * 0x100 + a.v4[3];
    assert a.v4[1] == 18 || a.v4[1] == 19;
    assert Fake4(id).v4 == a.v4;
  }

  lemma Fake4Fields(id: nat)
    requires id < 0x2_0000
    ensures var b := Fake4(id).v4;
            IsFakeIP(Fake4(id)) && (b[1] - 18) * 0x1_0000 + b[2] as int * 0x100 + b[3] == id
  {
  }

  lemma Fake6Fields(id: uint32)
    ensures Fake6(id).v6[..12] == Range6() && U32At(Fake6(id).v6, 12) == id
    ensures IsFakeIP(Fake6(id)) && !Fake6(id).Is4In6()
  {
    var b := Fake6(id).v6;
    assert b[..12] == Range6() && b[12..] == U32(id);
    assert U32At(b, 12) == U32At(b[12..], 0);
    assert b[0] == 0x20;
  }

  lemma Fake6Number(a: Addr)
    requires a.V6? && a.zone == "" && a.v6[..12] == Range6()
    ensures Fake6(U32At(a.v6, 12)) == a
  {
    U32Encodes(a.v6, 12);
    assert a.v6 == a.v6[..12] + a.v6[12..16];
  }

  // ---- Keys ----

  function KindText(kind: Kind): string {
    if kind == A then [1 as char] else [28 as char]
  }

  /** The key of byName. */
  function KeyOf(name: Name): string {
    name.host + "/" + KindText(name.kind) + if name.scope.Some? then "/dns-exit:" + name.scope.value else ""
  }

  predicate PlainHost(host: string) {
    '/' !in host
  }

  predicate PlainScope(name: Name) {
    name.scope.Some? ==> '/' !in name.scope.value
  }

  lemma SlashEndsHost(host: string, k: string, i: nat)
    requires host <= k && i < |k| && k[i] == '/'
    ensures i < |host| ==> !PlainHost(host)
  {
    if i < |host| {
      assert host[i] == '/';
    }
  }

  /** Hosts without slashes: different names have different keys. */
  lemma KeysInjective(m: Name, n: Name)
    requires PlainHost(m.host) && PlainHost(n.host) && KeyOf(m) == KeyOf(n)
    ensures m == n
  {
    var i, j, k := |m.host|, |n.host|, KeyOf(m);
    assert k[i] == '/' && k[j] == '/';
    SlashEndsHost(m.host, k, j);
    SlashEndsHost(n.host, k, i);
    assert m.host == k[..i] && n.host == k[..j];
    assert k[i + 1..i + 2] == KindText(m.kind) && k[j + 1..j + 2] == KindText(n.kind);
    assert [1 as char][0] != [28 as char][0];
    assert m.scope.Some? ==> k[i + 2..] == "/dns-exit:" + m.scope.value;
    assert n.scope.Some? ==> k[i + 2..] == "/dns-exit:" + n.scope.value;
    assert m.scope.Some? ==> |k| >= i + 12;
    assert n.scope.Some? ==> |k| >= i + 12;
    if m.scope.Some? {
      assert m.scope.value == k[i + 12..] == n.scope.value;
    }
  }

  /** Scopes without slashes: the last slash tells the scoped from the unscoped keys
      and ends the host, whatever is in it. */
  lemma KeysInjectiveByScope(m: Name, n: Name)
    requires PlainScope(m) && PlainScope(n) && KeyOf(m) == KeyOf(n)
    ensures m == n
  {
    LastSlash(m);
    LastSlash(n);
    var k := KeyOf(m);
    if m.scope.Some? {
      var i := |k| - |m.scope.value| - 10;
      assert m.scope.value == k[i + 10..] == n.scope.value;
      assert k[..i] == m.host + "/" + KindText(m.kind) == n.host + "/" + KindText(n.kind);
      SamePair(m, n);
    } else {
      assert k == m.host + "/" + KindText(m.kind) == n.host + "/" + KindText(n.kind);
      SamePair(m, n);
    }
  }

  lemma SamePair(m: Name, n: Name)
    requires m.host + "/" + KindText(m.kind) == n.host + "/" + KindText(n.kind)
    ensures m.host == n.host && m.kind == n.kind
  {
    var k := m.host + "/" + KindText(m.kind);
    assert m.host == k[..|k| - 2] == n.host;
    assert k[|k| - 1] == KindText(m.kind)[0] && k[|k| - 1] == KindText(n.kind)[0];
  }

  /** Where the last slash of such a key is, and what follows it. */
  lemma LastSlash(m: Name)
    requires PlainScope(m)
    ensures var k := KeyOf(m);
            if m.scope.Some? then
              var i := |k| - |m.scope.value| - 10;
              && i >= 0 && k[i] == '/' && '/' !in k[i + 1..]
              && k[i + 10..] == m.scope.value && k[..i] == m.host + "/" + KindText(m.kind) && |k| - i >= 10
            else |k| >= 2 && k[|k| - 2] == '/' && '/' !in k[|k| - 1..]
  {
    var k := KeyOf(m);
    if m.scope.Some? {
      var head := m.host + "/" + KindText(m.kind);
      var i := |head|;
      assert k == head + "/dns-exit:" + m.scope.value;
      assert k[i + 1..] == "dns-exit:" + m.scope.value;
      assert k[i..] == "/dns-exit:" + m.scope.value;
    } else {
      assert k[|k| - 1..] == KindText(m.kind);
    }
  }

  /** Names with a key of their own. */
  ghost predicate Apart(names: set<Name>) {
    forall m, n :: m in names && n in names && KeyOf(m) == KeyOf(n) ==> m == n
  }

  /** Either no host or no scope of the names has a slash: then the keys are apart. */
  lemma ApartUnlessSlashes(names: set<Name>)
    requires (forall n :: n in names ==> PlainHost(n.host)) || (forall n :: n in names ==> PlainScope(n))
    ensures Apart(names)
  {
    forall m, n | m in names && n in names && KeyOf(m) == KeyOf(n) ensures m == n {
      if PlainScope(m) && PlainScope(n) {
        KeysInjectiveByScope(m, n);
      } else {
        KeysInjective(m, n);
      }
    }
  }

  /** What stands between host and scope in a key. */
  function Joint(kind: Kind): (s: string)
    ensures |s| == 12
  {
    "/" + KindText(kind) + "/dns-exit:"
  }

  /** n's host continues m's up to and into its scope, and m's scope continues from there. */
  predicate Shadows(m: Name, n: Name) {
    && m.scope.Some? && n.scope.Some?
    && var head := m.host + Joint(m.kind);
       head <= n.host && m.scope.value == n.host[|head|..] + Joint(n.kind) + n.scope.value
  }

  /** Exactly then two scoped names share a key: one host must contain the other's key up
      to its scope, and its scope a slash. */
  lemma ScopedCollideIff(m: Name, n: Name)
    requires m != n && m.scope.Some? && n.scope.Some?
    ensures KeyOf(m) == KeyOf(n) <==> Shadows(m, n) || Shadows(n, m)
    ensures KeyOf(m) == KeyOf(n) ==> ('/' in m.host && '/' in n.scope.value) || ('/' in n.host && '/' in m.scope.value)
  {
    ScopedKey(m);
    ScopedKey(n);
    if KeyOf(m) == KeyOf(n) {
      if |m.host| <= |n.host| {
        SharedKeyShadows(m, n);
      } else {
        SharedKeyShadows(n, m);
      }
    } else if Shadows(m, n) {
      ShadowsShareKey(m, n);
    } else if Shadows(n, m) {
      ShadowsShareKey(n, m);
    }
  }

  lemma ScopedKey(m: Name)
    requires m.scope.Some?
    ensures KeyOf(m) == m.host + Joint(m.kind) + m.scope.value
  {
    assert m.host + Joint(m.kind) + m.scope.value == m.host + "/" + KindText(m.kind) + "/dns-exit:" + m.scope.value;
  }

  lemma ShadowsShareKey(m: Name, n: Name)
    requires Shadows(m, n)
    ensures KeyOf(m) == KeyOf(n)
  {
    ScopedKey(m);
    ScopedKey(n);
    hide Joint, KeyOf;
    var head := m.host + Joint(m.kind);
    assert n.host == head + n.host[|head|..];
  }

  /** A joint does not overlap another one. */
  lemma JointsApart(k: string, i: nat, j: nat, a: Kind, b: Kind)
    requires i < j && j + 12 <= |k| && k[i..i + 12] == Joint(a) && k[j..j + 12] == Joint(b)
    ensures i + 12 <= j
  {
    hide Joint;
    if j < i + 12 {
      var t := j - i;
      assert k[i..i + 12][t..] == k[j..j + 12][..12 - t];
      JointShifted(a, b, t);
    }
  }

  lemma JointShifted(a: Kind, b: Kind, t: nat)
    requires 0 < t < 12
    ensures Joint(a)[t..] != Joint(b)[..12 - t]
  {
    var s, u := Joint(a)[t..], Joint(b)[..12 - t];
    if t == 2 {
      assert s[1] == 'd' && u[1] == KindText(b)[0];
    } else {
      assert s[0] != '/' && u[0] == '/';
    }
  }

  lemma SameJoint(a: Kind, b: Kind)
    ensures Joint(a) == Joint(b) ==> a == b
  {
    assert Joint(a)[1] == KindText(a)[0] && Joint(b)[1] == KindText(b)[0];
  }

  lemma SharedKeyShadows(m: Name, n: Name)
    requires m != n && m.scope.Some? && n.scope.Some? && KeyOf(m) == KeyOf(n) && |m.host| <= |n.host|
    ensures Shadows(m, n) && '/' in n.host && '/' in m.scope.value
  {
    var k, i, j := KeyOf(m), |m.host|, |n.host|;
    ScopedKey(m);
    ScopedKey(n);
    hide KeyOf;
    assert k[..i] == m.host && k[..j] == n.host;
    assert k[i..i + 12] == Joint(m.kind) && k[j..j + 12] == Joint(n.kind);
    assert k[i + 12..] == m.scope.value && k[j + 12..] == n.scope.value;
    if i == j {
      SameJoint(m.kind, n.kind);
    } else {
      JointsApart(k, i, j, m.kind, n.kind);
      assert k[..i + 12] == m.host + Joint(m.kind) && k[..i + 12] <= k[..j];
      assert k[i + 12..] == k[i + 12..j] + k[j..j + 12] + k[j + 12..];
      assert n.host[i] == Joint(m.kind)[0] == '/' && m.scope.value[j - i - 12] == Joint(n.kind)[0] == '/';
    }
  }

  /** Two names with a scope each, as the resolver asks for them, that share a key. */
  lemma SlashesCollide()
    ensures var m, n := Name("x", A, Some("s" + Joint(A) + "t")), Name("x" + Joint(A) + "s", A, Some("t"));
            m != n && KeyOf(m) == KeyOf(n)
  {
    var m, n := Name("x", A, Some("s" + Joint(A) + "t")), Name("x" + Joint(A) + "s", A, Some("t"));
    assert n.host[|"x" + Joint(A)|..] == "s";
    ShadowsShareKey(m, n);
  }

  // ---- Allocation ----

  predicate Live(s: State, key: string, now: int) {
    key in s.byName && s.byName[key] in s.byIP && s.byIP[s.byName[key]].expires > now
  }

  function Pruned(s: State, now: int): State {
    var byIP := map a | a in s.byIP && s.byIP[a].expires > now :: s.byIP[a];
    s.(byIP := byIP, byName := map k | k in s.byName && s.byName[k] in byIP :: s.byName[k])
  }

  /** s without the stale binding of key. */
  function Forgotten(s: State, key: string): State {
    if key in s.byName then s.(byName := s.byName - {key}, byIP := s.byIP - {s.byName[key]}) else s
  }

  /** The table after room was made, if there is room. */
  function Reclaimed(s: State, now: int): State {
    if |s.byIP| >= 32768 then Pruned(s, now) else s
  }

  function Bound(s: State, key: string, ip: Addr, entry: Entry): State {
    s.(byName := s.byName[key := ip], byIP := s.byIP[ip := entry])
  }

  /** The counters advance before the range is checked. */
  function Mint(s: State, kind: Kind): (State, Option<Addr>) {
    if kind == A then
      var n := (s.next4 + 1) % 0x1_0000_0000;
      (s.(next4 := n), if n > 131070 then None else Some(Fake4(n)))
    else
      var n := (s.next6 + 1) % 0x1_0000_0000;
      (s.(next6 := n), if n == 0 then None else Some(Fake6(n)))
  }

  function NameOf(host: string, kind: Kind, scope: string, scoped: bool): Name {
    Name(host, kind, if scoped then Some(scope) else None)
  }

  /** allocateScoped. */
  function Allocate(s: State, host: string, kind: Kind, scope: string, scoped: bool, now: int): (State, Option<Addr>) {
    var key := KeyOf(NameOf(host, kind, scope, scoped));
    if Live(s, key, now) then
      var ip := s.byName[key];
      (s.(byIP := s.byIP[ip := s.byIP[ip].(expires := now + LEASE)]), Some(ip))
    else
      var s1 := Reclaimed(Forgotten(s, key), now);
      if |s1.byIP| >= 32768 then (s1, None) else
      var (s2, ip) := Mint(s1, kind);
      match ip
      case None => (s2, None)
      case Some(ip) => (Bound(s2, key, ip, Entry(host, scope, scoped, now + LEASE)), Some(ip))
  }

  /** lookupWithScope. */
  function Lookup(s: State, addr: Addr, now: int): Option<Entry> {
    if IsFakeIP(addr) && addr.Unmap() in s.byIP && s.byIP[addr.Unmap()].expires > now
    then Some(s.byIP[addr.Unmap()]) else None
  }

  class FakeIpDns {
    var next4: uint32
    var next6: uint32
    var byName: map<string, Addr>
    var byIP: map<Addr, Entry>

    function Now(): State
      reads this
    {
      State(next4, next6, byName, byIP)
    }

    constructor ()
      ensures Now() == State(0, 0, map[], map[])
    {
      next4, next6, byName, byIP := 0, 0, map[], map[];
    }

    method PruneExpiredLocked(now: int)
      modifies this`byName, this`byIP
      ensures Now() == Pruned(old(Now()), now)
    {
      ghost var names := byName;
      var ips := byIP.Keys;
      while ips != {}
        invariant ips <= old(byIP).Keys && byName == names
        invariant byIP == map a | a in old(byIP) && (a in ips || old(byIP)[a].expires > now) :: old(byIP)[a]
        decreases ips
      {
        var a :| a in ips;
        ips := ips - {a};
        if byIP[a].expires <= now {
          byIP := byIP - {a};
        }
      }
      var keys := byName.Keys;
      while keys != {}
        invariant keys <= names.Keys && byIP == Pruned(old(Now()), now).byIP
        invariant byName == map k | k in names && (k in keys || names[k] in byIP) :: names[k]
        decreases keys
      {
        var k :| k in keys;
        keys := keys - {k};
        if byName[k] !in byIP {
          byName := byName - {k};
        }
      }
    }

    method AllocateScoped(host: string, kind: Kind, scope: string, scoped: bool, now: int) returns (ip: Option<Addr>)
      modifies this
      ensures (Now(), ip) == Allocate(old(Now()), host, kind, scope, scoped, now)
    {
      hide Pruned, KeyOf, Mint;
      var key := KeyOf(NameOf(host, kind, scope, scoped));
      if key in byName {
        var existing := byName[key];
        if existing in byIP && byIP[existing].expires > now {
          byIP := byIP[existing := byIP[existing].(expires := now + LEASE)];
          return Some(existing);
        }
        byName := byName - {key};
        byIP := byIP - {existing};
      }
      assert Now() == Forgotten(old(Now()), key);
      if |byIP| >= 32768 {
        PruneExpiredLocked(now);
        if |byIP| >= 32768 {
          return None;
        }
      }
      assert Now() == Reclaimed(Forgotten(old(Now()), key), now);
      var minted := MintAddress(kind);
      if minted.None? {
        return None;
      }
      byName := byName[key := minted.value];
      byIP := byIP[minted.value := Entry(host, scope, scoped, now + LEASE)];
      return minted;
    }

    method LookupWithScope(addr: Addr, now: int) returns (entry: Option<Entry>)
      ensures entry == Lookup(Now(), addr, now)
    {
      if !IsFakeIP(addr) {
        return None;
      }
      var key := addr.Unmap();
      if key !in byIP || byIP[key].expires <= now {
        return None;
      }
      return Some(byIP[key]);
    }

    /** The next address of a family, fakeip.go:144-159. */
    method MintAddress(kind: Kind) returns (ip: Option<Addr>)
      modifies this`next4, this`next6
      ensures (Now(), ip) == Mint(old(Now()), kind)
    {
      if kind == A {
        next4 := (next4 + 1) % 0x1_0000_0000;
        if next4 > 131070 {
          return None;
        }
        return Some(Fake4(next4));
      }
      next6 := (next6 + 1) % 0x1_0000_0000;
      if next6 == 0 {
        return None;
      }
      return Some(Fake6(next6));
    }
  }

  // ---- Whole runs ----

  datatype Request = Request(host: string, kind: Kind, scope: string, scoped: bool, now: int)
  {
    function Wanted(): Name {
      NameOf(host, kind, scope, scoped)
    }
  }

  /** The allocator with everything it ever did: minted addresses with their
      names, the answers given, and the number of mint attempts per family. */
  datatype History = History(s: State, minted: map<Addr, Name>, grants: seq<(Addr, Name)>, tries4: nat, tries6: nat)

  predicate Attempts(s: State, r: Request) {
    !Live(s, KeyOf(r.Wanted()), r.now) && |Reclaimed(Forgotten(s, KeyOf(r.Wanted())), r.now).byIP| < 32768
  }

  function Step(h: History, r: Request): History {
    var (s, ip) := Allocate(h.s, r.host, r.kind, r.scope, r.scoped, r.now);
    var tried := Attempts(h.s, r);
    History(s,
            if tried && ip.Some? then h.minted[ip.value := r.Wanted()] else h.minted,
            if ip.Some? then h.grants + [(ip.value, r.Wanted())] else h.grants,
            if tried && r.kind == A then h.tries4 + 1 else h.tries4,
            if tried && r.kind == AAAA then h.tries6 + 1 else h.tries6)
  }

  const START := History(State(0, 0, map[], map[]), map[], [], 0, 0)

  function Run(rs: seq<Request>): History {
    if rs == [] then START else Step(Run(rs[..|rs| - 1]), rs[|rs| - 1])
  }

  /** The addresses handed out by counters at next4 and next6. */
  predicate Counted(a: Addr, next4: nat, next6: nat) {
    (exists i: nat :: 1 <= i <= next4 && i <= 131070 && a == Fake4(i))
    || (exists i: uint32 :: 1 <= i <= next6 && a == Fake6(i))
  }

  ghost predicate Described(h: History, a: Addr)
    requires a in h.s.byIP
  {
    && a in h.minted
    && KeyOf(h.minted[a]) in h.s.byName && h.s.byName[KeyOf(h.minted[a])] == a
    && h.s.byIP[a].host == h.minted[a].host
    && h.minted[a].scope == (if h.s.byIP[a].scoped then Some(h.s.byIP[a].scope) else None)
  }

  ghost predicate Inv(h: History) {
    && h.s.next4 == h.tries4 && h.s.next6 == h.tries6
    && (forall a :: a in h.minted <==> Counted(a, h.s.next4, h.s.next6))
    && (forall a :: a in h.s.byIP ==> Described(h, a))
    && (forall k :: k in h.s.byName ==> h.s.byName[k] in h.s.byIP && k == KeyOf(h.minted[h.s.byName[k]]))
    && (forall i :: 0 <= i < |h.grants| ==> h.grants[i].0 in h.minted && KeyOf(h.minted[h.grants[i].0]) == KeyOf(h.grants[i].1))
    && |h.s.byIP| <= 32768
  }

  /** A table that keeps the invariant whatever bindings are dropped from it, as
      long as both maps drop the same ones. */
  lemma InvShrink(h: History, s: State)
    requires Inv(h) && s.next4 == h.s.next4 && s.next6 == h.s.next6
    requires forall a :: a in s.byIP ==> a in h.s.byIP && s.byIP[a] == h.s.byIP[a]
    requires forall k :: k in s.byName ==> k in h.s.byName && s.byName[k] == h.s.byName[k] && s.byName[k] in s.byIP
    requires forall k :: k in h.s.byName && h.s.byName[k] in s.byIP ==> k in s.byName
    ensures Inv(h.(s := s))
  {
    hide Counted, KeyOf;
    assert s.byIP.Keys <= h.s.byIP.Keys;
    SubsetSize(s.byIP.Keys, h.s.byIP.Keys);
  }

  lemma InvForgotten(h: History, key: string)
    requires Inv(h)
    ensures Inv(h.(s := Forgotten(h.s, key))) && key !in Forgotten(h.s, key).byName
  {
    hide Counted, KeyOf;
    InvShrink(h, Forgotten(h.s, key));
  }

  lemma InvReclaimed(h: History, now: int)
    requires Inv(h)
    ensures Inv(h.(s := Reclaimed(h.s, now)))
    ensures Reclaimed(h.s, now).byName.Keys <= h.s.byName.Keys
  {
    hide Counted, KeyOf;
    InvShrink(h, Reclaimed(h.s, now));
  }

  /** One more mint attempt stays below 2^32 for its family. */
  predicate CanCount(h: History, kind: Kind) {
    if kind == A then h.tries4 + 1 < 0x1_0000_0000 else h.tries6 + 1 < 0x1_0000_0000
  }

  /** A minted address is new. */
  lemma MintIsFresh(h: History, kind: Kind)
    requires Inv(h) && CanCount(h, kind)
    ensures var (s, ip) := Mint(h.s, kind);
            && (ip.Some? ==> ip.value !in h.minted) && s.byName == h.s.byName && s.byIP == h.s.byIP
            && s.next4 == (if kind == A then h.s.next4 + 1 else h.s.next4)
            && s.next6 == (if kind == AAAA then h.s.next6 + 1 else h.s.next6)
            && forall a :: Counted(a, s.next4, s.next6) <==> a in h.minted || ip == Some(a)
  {
    hide Inv, Fake4, Fake6;
    var (s, ip) := Mint(h.s, kind);
    MintCounts(h);
    if ip.Some? {
      FreshNumber(h.s, kind);
    }
    forall a ensures Counted(a, s.next4, s.next6) <==> Counted(a, h.s.next4, h.s.next6) || ip == Some(a) {
      if ip == Some(a) {
        assert kind == A ==> a == Fake4(s.next4);
        assert kind == AAAA ==> a == Fake6(s.next6);
      }
    }
  }

  lemma MintCounts(h: History)
    requires Inv(h)
    ensures h.s.next4 == h.tries4 && h.s.next6 == h.tries6
    ensures forall a :: a in h.minted <==> Counted(a, h.s.next4, h.s.next6)
  {
  }

  lemma FreshNumber(s: State, kind: Kind)
    requires (if kind == A then s.next4 + 1 else s.next6 + 1) < 0x1_0000_0000 && Mint(s, kind).1.Some?
    ensures !Counted(Mint(s, kind).1.value, s.next4, s.next6)
  {
    hide Fake4, Fake6, Counted;
    if kind == A {
      FreshNumber4(s.next4, s.next6);
    } else {
      FreshNumber6(s.next4, s.next6);
    }
  }

  lemma FreshNumber4(next4: nat, next6: nat)
    requires next4 + 1 <= 131070
    ensures !Counted(Fake4(next4 + 1), next4, next6)
  {
    Fake4Fields(next4 + 1);
    forall i: nat | 1 <= i <= next4 && i <= 131070 ensures Fake4(next4 + 1) != Fake4(i) { Fake4Fields(i); }
  }

  lemma FreshNumber6(next4: nat, next6: nat)
    requires next6 + 1 < 0x1_0000_0000
    ensures !Counted(Fake6(next6 + 1), next4, next6)
  {
    Fake6Fields(next6 + 1);
    forall i: uint32 | 1 <= i <= next6 ensures Fake6(next6 + 1) != Fake6(i) { Fake6Fields(i); }
  }

  lemma InvBound(h: History, r: Request)
    requires Inv(h) && KeyOf(r.Wanted()) !in h.s.byName && |h.s.byIP| < 32768
    requires CanCount(h, r.kind)
    ensures var (s, ip) := Mint(h.s, r.kind);
            var t4, t6 := if r.kind == A then h.tries4 + 1 else h.tries4, if r.kind == AAAA then h.tries6 + 1 else h.tries6;
            if ip.None? then Inv(History(s, h.minted, h.grants, t4, t6))
            else Inv(History(Bound(s, KeyOf(r.Wanted()), ip.value, Entry(r.host, r.scope, r.scoped, r.now + LEASE)),
                             h.minted[ip.value := r.Wanted()], h.grants + [(ip.value, r.Wanted())], t4, t6))
  {
    hide Counted, KeyOf, Mint;
    MintIsFresh(h, r.kind);
    var (s, ip) := Mint(h.s, r.kind);
    if ip.Some? {
      MapUpdateSize(h.s.byIP, ip.value, Entry(r.host, r.scope, r.scoped, r.now + LEASE));
    }
  }

  lemma InvRenew(h: History, r: Request)
    requires Inv(h) && Live(h.s, KeyOf(r.Wanted()), r.now)
    ensures Inv(Step(h, r)) && Step(h, r).minted == h.minted
  {
    hide Counted, KeyOf;
    var key := KeyOf(r.Wanted());
    var ip := h.s.byName[key];
    assert Step(h, r).s.byIP.Keys == h.s.byIP.Keys;
    assert |Step(h, r).s.byIP| == |Step(h, r).s.byIP.Keys| && |h.s.byIP| == |h.s.byIP.Keys|;
  }

  /** What a step is when it reaches the mint. */
  lemma StepAttempts(h: History, r: Request)
    requires Attempts(h.s, r)
    ensures var s1 := Reclaimed(Forgotten(h.s, KeyOf(r.Wanted())), r.now);
            var (s, ip) := Mint(s1, r.kind);
            var t4, t6 := if r.kind == A then h.tries4 + 1 else h.tries4, if r.kind == AAAA then h.tries6 + 1 else h.tries6;
            Step(h, r) ==
              if ip.None? then History(s, h.minted, h.grants, t4, t6)
              else History(Bound(s, KeyOf(r.Wanted()), ip.value, Entry(r.host, r.scope, r.scoped, r.now + LEASE)),
                           h.minted[ip.value := r.Wanted()], h.grants + [(ip.value, r.Wanted())], t4, t6)
  {
    hide Mint, Pruned, Forgotten, KeyOf, Bound;
  }

  lemma InvStep(h: History, r: Request)
    requires Inv(h)
    requires Step(h, r).tries4 < 0x1_0000_0000 && Step(h, r).tries6 < 0x1_0000_0000
    ensures Inv(Step(h, r))
    ensures forall a :: a in h.minted ==> a in Step(h, r).minted && Step(h, r).minted[a] == h.minted[a]
  {
    hide Inv, Counted, KeyOf, Mint, Pruned, Bound, Forgotten;
    var key := KeyOf(r.Wanted());
    if Live(h.s, key, r.now) {
      InvRenew(h, r);
    } else {
      InvForgotten(h, key);
      var h1 := h.(s := Forgotten(h.s, key));
      InvReclaimed(h1, r.now);
      var h2 := h1.(s := Reclaimed(h1.s, r.now));
      if |h2.s.byIP| < 32768 {
        StepAttempts(h, r);
        MintIsFresh(h2, r.kind);
        InvBound(h2, r);
        var ip := Mint(h2.s, r.kind).1;
        assert Step(h, r).minted == if ip.Some? then h.minted[ip.value := r.Wanted()] else h.minted;
      }
    }
  }

  lemma {:induction false} InvRun(rs: seq<Request>)
    requires Run(rs).tries4 < 0x1_0000_0000 && Run(rs).tries6 < 0x1_0000_0000
    ensures Inv(Run(rs))
  {
    hide Inv;
    if rs == [] {
      NothingCounted();
    } else {
      TriesGrow(rs);
      InvRun(rs[..|rs| - 1]);
      InvStep(Run(rs[..|rs| - 1]), rs[|rs| - 1]);
    }
  }

  lemma TriesGrow(rs: seq<Request>)
    requires rs != []
    ensures Run(rs[..|rs| - 1]).tries4 <= Run(rs).tries4 && Run(rs[..|rs| - 1]).tries6 <= Run(rs).tries6
  {
  }

  lemma NothingCounted()
    ensures Inv(START)
  {
  }

  /** In every run the names that got one address all have the same key. */
  lemma SameAddressSameKey(rs: seq<Request>, i: nat, j: nat)
    requires Run(rs).tries4 < 0x1_0000_0000 && Run(rs).tries6 < 0x1_0000_0000
    requires i < |Run(rs).grants| && j < |Run(rs).grants| && Run(rs).grants[i].0 == Run(rs).grants[j].0
    ensures KeyOf(Run(rs).grants[i].1) == KeyOf(Run(rs).grants[j].1)
  {
    InvRun(rs);
  }

  /** All requests are for these names. */
  ghost predicate Over(names: set<Name>, rs: seq<Request>) {
    forall i :: 0 <= i < |rs| ==> rs[i].Wanted() in names
  }

  lemma {:induction false} GrantsOver(names: set<Name>, rs: seq<Request>)
    requires Over(names, rs)
    ensures forall i :: 0 <= i < |Run(rs).grants| ==> Run(rs).grants[i].1 in names
  {
    hide Allocate, Attempts;
    if rs != [] {
      GrantsOver(names, rs[..|rs| - 1]);
    }
  }

  /** Some address was granted for two names. */
  ghost predicate Reassigns(rs: seq<Request>) {
    exists i, j :: 0 <= i < |Run(rs).grants| && 0 <= j < |Run(rs).grants|
                   && Run(rs).grants[i].0 == Run(rs).grants[j].0 && Run(rs).grants[i].1 != Run(rs).grants[j].1
  }

  /** No address is ever granted for two names, expiry and pruning included, in any
      run over names that have keys of their own. */
  lemma NeverReassigned(names: set<Name>, rs: seq<Request>)
    requires Apart(names) && Over(names, rs)
    requires Run(rs).tries4 < 0x1_0000_0000 && Run(rs).tries6 < 0x1_0000_0000
    ensures !Reassigns(rs)
  {
    GrantsOver(names, rs);
    InvRun(rs);
    hide Run, KeyOf, Counted;
    if Reassigns(rs) {
      var i, j :| 0 <= i < |Run(rs).grants| && 0 <= j < |Run(rs).grants|
                  && Run(rs).grants[i].0 == Run(rs).grants[j].0 && Run(rs).grants[i].1 != Run(rs).grants[j].1;
      SameAddressSameKey(rs, i, j);
    }
  }

  function Asking(name: Name): Request {
    Request(name.host, name.kind, name.scope.GetOr(""), name.scope.Some?, 0)
  }

  /** Two names with one key: the second is granted the first one's address. */
  lemma CollisionReassigns(m: Name, n: Name)
    requires m != n && KeyOf(m) == KeyOf(n)
    ensures var rs := [Asking(m), Asking(n)];
            && Reassigns(rs) && Run(rs).tries4 <= 2 && Run(rs).tries6 <= 2
            && Asking(m).Wanted() == m && Asking(n).Wanted() == n
  {
    var rs := [Asking(m), Asking(n)];
    assert rs[..1] == [Asking(m)] && [Asking(m)][..0] == [];
    assert Run([]) == START;
    assert Run([Asking(m)]) == Step(START, Asking(m));
    FirstGrant(m);
    var h := Step(START, Asking(m));
    var ip := h.grants[0].0;
    RenewedGrant(h, n, ip);
    assert Run(rs) == Step(h, Asking(n));
    hide Step, Run, KeyOf;
    var grants := Run(rs).grants;
    assert grants == [(ip, m), (ip, n)];
    assert grants[0].0 == grants[1].0 && grants[0].1 != grants[1].1;
  }

  lemma FirstGrant(m: Name)
    ensures Asking(m).Wanted() == m
    ensures var h := Step(START, Asking(m));
            && |h.grants| == 1 && h.grants[0].1 == m && h.tries4 <= 1 && h.tries6 <= 1
            && h.s.byName == map[KeyOf(m) := h.grants[0].0] && h.grants[0].0 in h.s.byIP
            && h.s.byIP[h.grants[0].0].expires == LEASE
  {
    hide KeyOf, Fake4, Fake6;
    assert !Live(START.s, KeyOf(m), 0);
    assert Forgotten(START.s, KeyOf(m)) == START.s && Reclaimed(START.s, 0) == START.s;
  }

  lemma RenewedGrant(h: History, n: Name, ip: Addr)
    requires KeyOf(n) in h.s.byName && h.s.byName[KeyOf(n)] == ip && ip in h.s.byIP && h.s.byIP[ip].expires == LEASE
    ensures Step(h, Asking(n)).grants == h.grants + [(ip, n)]
    ensures Step(h, Asking(n)).tries4 == h.tries4 && Step(h, Asking(n)).tries6 == h.tries6
  {
    hide KeyOf;
    assert Asking(n).Wanted() == n;
    assert Live(h.s, KeyOf(n), 0);
  }

  /** So runs over these names never reassign an address exactly when the names have
      keys of their own. */
  lemma NeverReassignedIff(names: set<Name>)
    ensures (forall rs :: Over(names, rs) && Run(rs).tries4 < 0x1_0000_0000 && Run(rs).tries6 < 0x1_0000_0000 ==> !Reassigns(rs))
            <==> Apart(names)
  {
    hide KeyOf, Run;
    if Apart(names) {
      forall rs | Over(names, rs) && Run(rs).tries4 < 0x1_0000_0000 && Run(rs).tries6 < 0x1_0000_0000 ensures !Reassigns(rs) {
        NeverReassigned(names, rs);
      }
    } else {
      var m, n :| m in names && n in names && KeyOf(m) == KeyOf(n) && m != n;
      CollisionReassigns(m, n);
      assert Over(names, [Asking(m), Asking(n)]);
    }
  }

  /** byName is a bijection onto the addresses of byIP, and the table is bounded. */
  lemma TableIsBijection(rs: seq<Request>)
    requires Run(rs).tries4 < 0x1_0000_0000 && Run(rs).tries6 < 0x1_0000_0000
    ensures var s := Run(rs).s;
            && s.byName.Values == s.byIP.Keys && |s.byIP| <= 32768
            && forall j, k :: j in s.byName && k in s.byName && s.byName[j] == s.byName[k] ==> j == k
  {
    hide Counted, KeyOf;
    InvRun(rs);
    var s := Run(rs).s;
    forall a | a in s.byIP ensures a in s.byName.Values {
      assert Described(Run(rs), a);
    }
  }

  /** wasIssued, for addresses that are not IPv4-mapped, is exactly "was minted";
      once the IPv4 range is exhausted its last address is the one exception. */
  lemma IssuedIffMinted(h: History, a: Addr)
    requires Inv(h) && !a.Is4In6()
    ensures WasIssued(h.s, a) <==> a in h.minted || (a == Fake4(131071) && h.s.next4 >= 131071)
  {
    hide Inv;
    MintCounts(h);
    if IsFakeIP(a) {
      IssuedIffCounted(h.s, a);
    } else if Counted(a, h.s.next4, h.s.next6) {
      CountedIsFake(a, h.s.next4, h.s.next6);
    } else {
      Fake4Fields(131071);
    }
  }

  lemma CountedIsFake(a: Addr, next4: nat, next6: nat)
    requires Counted(a, next4, next6)
    ensures IsFakeIP(a)
  {
    if i: nat :| 1 <= i <= next4 && i <= 131070 && a == Fake4(i) {
      Fake4Fields(i);
    } else {
      var i: uint32 :| 1 <= i <= next6 && a == Fake6(i);
      Fake6Fields(i);
    }
  }

  lemma IssuedIffCounted(s: State, a: Addr)
    requires IsFakeIP(a) && !a.Is4In6()
    ensures WasIssued(s, a) <==> Counted(a, s.next4, s.next6) || (a == Fake4(131071) && s.next4 >= 131071)
  {
    if a.V4? {
      Fake4Number(a);
      forall i: nat | i < 0x2_0000 && a == Fake4(i) ensures i == (a.v4[1] - 18) * 0x1_0000 + a.v4[2] as int * 0x100 + a.v4[3] {
        Fake4Fields(i);
      }
    } else {
      Fake6Number(a);
      forall i: uint32 | a == Fake6(i) ensures i == U32At(a.v6, 12) { Fake6Fields(i); }
    }
  }

  /** The IPv4-mapped form of an address.  */
  function Mapped(b: Bytes4): Addr {
    V6([0, 0, 0, 0, 0, 0, 0, 0, 0, 0, 0xff, 0xff] + b, "")
  }

  /** wasIssued does not unmap its argument, although isFakeIP does: the mapped
      form of an IPv4 address in the range counts as issued by the IPv6 counter,
      that is, practically never. It is a trap for a future caller: today's callers
      take addresses from parsed packets and validated flows, which are unmapped. */
  lemma MappedIssued(s: State, b: Bytes4)
    requires IsFakeIP(V4(b))
    ensures WasIssued(s, Mapped(b)) <==> U32At(b, 0) <= s.next6
    ensures U32At(b, 0) >= 198 * 0x100_0000
  {
    var m := Mapped(b);
    assert m.v6[..10] == Zeros(10);
    assert m.v6[12..] == b;
    assert m.Unmap() == V4(b);
    assert U32At(m.v6, 12) == U32At(b, 0);
  }

  /** A minted address whose mapped form is not recognised. */
  lemma MappedNotIssued()
    ensures var h := Run([Request("a.example", A, "", false, 0)]);
            && h.grants == [(V4([198, 18, 0, 1]), Name("a.example", A, None))]
            && WasIssued(h.s, V4([198, 18, 0, 1])) && !WasIssued(h.s, Mapped([198, 18, 0, 1]))
  {
    FirstRun();
    hide Run;
    var s := Run([Request("a.example", A, "", false, 0)]).s;
    MappedIssued(s, [198, 18, 0, 1]);
  }

  /** Two keys never share an address. */
  lemma KeysApart(h: History, j: string, k: string)
    requires Inv(h) && j in h.s.byName && k in h.s.byName && j != k
    ensures h.s.byName[j] != h.s.byName[k]
  {
    hide Counted, KeyOf;
  }

  /** A live name keeps its address: asking again returns it, and whatever else is
      asked at the same time leaves it in place with no shorter life. */
  lemma LiveKeepsAddress(h: History, name: Name, r: Request)
    requires Inv(h) && Live(h.s, KeyOf(name), r.now)
    requires Step(h, r).tries4 < 0x1_0000_0000 && Step(h, r).tries6 < 0x1_0000_0000
    ensures r.Wanted() == name ==> Allocate(h.s, r.host, r.kind, r.scope, r.scoped, r.now).1 == Some(h.s.byName[KeyOf(name)])
    ensures var s := Step(h, r).s;
            && Live(s, KeyOf(name), r.now) && s.byName[KeyOf(name)] == h.s.byName[KeyOf(name)]
            && s.byIP[s.byName[KeyOf(name)]].expires ==
               if KeyOf(r.Wanted()) == KeyOf(name) then r.now + LEASE else h.s.byIP[h.s.byName[KeyOf(name)]].expires
  {
    hide Inv, KeyOf;
    var key, k := KeyOf(name), KeyOf(r.Wanted());
    if k == key {
      Renewed(h, r);
    } else if Attempts(h.s, r) {
      KeptByOther(h, key, r);
      BindsOther(h, key, r);
    } else {
      KeptByRenewal(h, key, r);
    }
    hide Step, Allocate;
  }

  lemma Renewed(h: History, r: Request)
    requires Live(h.s, KeyOf(r.Wanted()), r.now)
    ensures var key := KeyOf(r.Wanted());
            && Allocate(h.s, r.host, r.kind, r.scope, r.scoped, r.now).1 == Some(h.s.byName[key])
            && Live(Step(h, r).s, key, r.now) && Step(h, r).s.byName == h.s.byName
            && Step(h, r).s.byIP[h.s.byName[key]].expires == r.now + LEASE
  {
    hide KeyOf;
  }

  /** Making room leaves other live names alone. */
  lemma KeptByOther(h: History, key: string, r: Request)
    requires Inv(h) && Live(h.s, key, r.now) && key != KeyOf(r.Wanted())
    ensures var s := Reclaimed(Forgotten(h.s, KeyOf(r.Wanted())), r.now);
            && Inv(h.(s := s)) && Live(s, key, r.now) && s.byName[key] == h.s.byName[key]
            && s.byIP[s.byName[key]] == h.s.byIP[h.s.byName[key]]
  {
    hide Inv, KeyOf, Forgotten, Reclaimed;
    var k := KeyOf(r.Wanted());
    KeptByForgetting(h, key, k, r.now);
    InvReclaimed(h.(s := Forgotten(h.s, k)), r.now);
    KeptByReclaiming(Forgotten(h.s, k), key, r.now);
  }

  lemma KeptByForgetting(h: History, key: string, k: string, now: int)
    requires Inv(h) && Live(h.s, key, now) && key != k
    ensures var s := Forgotten(h.s, k);
            && Inv(h.(s := s)) && Live(s, key, now) && s.byName[key] == h.s.byName[key]
            && s.byIP[s.byName[key]] == h.s.byIP[h.s.byName[key]]
  {
    hide Inv, Forgotten, Live;
    InvForgotten(h, k);
    LiveIsBound(h.s, key, now);
    if k in h.s.byName {
      KeysApart(h, key, k);
    }
    ForgettingKeeps(h.s, key, k, now);
  }

  lemma LiveIsBound(s: State, key: string, now: int)
    requires Live(s, key, now)
    ensures key in s.byName && s.byName[key] in s.byIP
  {
  }

  lemma ForgettingKeeps(s: State, key: string, k: string, now: int)
    requires Live(s, key, now) && key != k && (k in s.byName ==> s.byName[k] != s.byName[key])
    ensures var s' := Forgotten(s, k);
            Live(s', key, now) && s'.byName[key] == s.byName[key] && s'.byIP[s'.byName[key]] == s.byIP[s.byName[key]]
  {
  }

  lemma KeptByReclaiming(s: State, key: string, now: int)
    requires Live(s, key, now)
    ensures var s' := Reclaimed(s, now);
            Live(s', key, now) && s'.byName[key] == s.byName[key] && s'.byIP[s'.byName[key]] == s.byIP[s.byName[key]]
  {
  }

  lemma BindsOther(h: History, key: string, r: Request)
    requires Attempts(h.s, r) && key != KeyOf(r.Wanted())
    requires Step(h, r).tries4 < 0x1_0000_0000 && Step(h, r).tries6 < 0x1_0000_0000
    requires var s := Reclaimed(Forgotten(h.s, KeyOf(r.Wanted())), r.now); Inv(h.(s := s)) && Live(s, key, r.now)
    ensures var s, s' := Reclaimed(Forgotten(h.s, KeyOf(r.Wanted())), r.now), Step(h, r).s;
            && Live(s', key, r.now) && s'.byName[key] == s.byName[key]
            && s'.byIP[s'.byName[key]] == s.byIP[s.byName[key]]
  {
    StepAttempts(h, r);
    TriesCount(h, r);
    hide Step, Attempts, Inv, KeyOf, Forgotten, Reclaimed, Mint, Live, Bound;
    var s := Reclaimed(Forgotten(h.s, KeyOf(r.Wanted())), r.now);
    var h2 := h.(s := s);
    MintIsFresh(h2, r.kind);
    LiveMinted(h2, key, r.now);
    var (s2, ip) := Mint(s, r.kind);
    if ip.Some? {
      BoundElsewhere(s, s2, key, KeyOf(r.Wanted()), ip.value, Entry(r.host, r.scope, r.scoped, r.now + LEASE), r.now);
    } else {
      SameNames(s, s2, key, r.now);
    }
  }

  lemma SameNames(s: State, s2: State, key: string, now: int)
    requires s2.byName == s.byName && s2.byIP == s.byIP && Live(s, key, now)
    ensures Live(s2, key, now) && s2.byName[key] == s.byName[key] && s2.byIP[s2.byName[key]] == s.byIP[s.byName[key]]
  {
  }

  lemma BoundElsewhere(s: State, s2: State, key: string, k: string, ip: Addr, entry: Entry, now: int)
    requires s2.byName == s.byName && s2.byIP == s.byIP && Live(s, key, now) && key != k && s.byName[key] != ip
    ensures var s' := Bound(s2, k, ip, entry);
            Live(s', key, now) && s'.byName[key] == s.byName[key] && s'.byIP[s'.byName[key]] == s.byIP[s.byName[key]]
  {
  }

  lemma TriesCount(h: History, r: Request)
    requires Attempts(h.s, r) && Step(h, r).tries4 < 0x1_0000_0000 && Step(h, r).tries6 < 0x1_0000_0000
    ensures CanCount(h, r.kind)
  {
    hide KeyOf, Allocate;
  }

  /** A request that renews another name or is refused. */
  lemma KeptByRenewal(h: History, key: string, r: Request)
    requires Inv(h) && Live(h.s, key, r.now) && key != KeyOf(r.Wanted()) && !Attempts(h.s, r)
    ensures var s := Step(h, r).s;
            && Live(s, key, r.now) && s.byName[key] == h.s.byName[key]
            && s.byIP[s.byName[key]] == h.s.byIP[h.s.byName[key]]
  {
    hide Inv, KeyOf, Forgotten, Reclaimed;
    var k := KeyOf(r.Wanted());
    if Live(h.s, k, r.now) {
      KeysApart(h, key, k);
    } else {
      KeptByOther(h, key, r);
    }
  }

  lemma LiveMinted(h: History, key: string, now: int)
    requires Inv(h) && Live(h.s, key, now)
    ensures h.s.byName[key] in h.minted
  {
    hide Counted, KeyOf;
    assert Described(h, h.s.byName[key]);
  }

  /** The first allocation, for an IPv4 address. */
  lemma FirstAllocation()
    ensures var (s, ip) := Allocate(START.s, "a.example", A, "", false, 0);
            && ip == Some(V4([198, 18, 0, 1])) && s.next4 == 1 && s.next6 == 0
            && s.byIP == map[V4([198, 18, 0, 1]) := Entry("a.example", "", false, LEASE)]
  {
    hide KeyOf, Fake6, Pruned;
    var key := KeyOf(NameOf("a.example", A, "", false));
    assert Forgotten(START.s, key) == START.s && Reclaimed(START.s, 0) == START.s;
    assert Mint(START.s, A).1 == Some(V4([198, 18, 0, 1]));
  }

  /** The allocator after its first request. */
  lemma FirstRun()
    ensures var s := Run([Request("a.example", A, "", false, 0)]).s;
            && s.next4 == 1 && s.next6 == 0
            && s.byIP == map[V4([198, 18, 0, 1]) := Entry("a.example", "", false, LEASE)]
    ensures Run([Request("a.example", A, "", false, 0)]).grants == [(V4([198, 18, 0, 1]), Name("a.example", A, None))]
  {
    FirstAllocation();
    hide KeyOf, Allocate, Attempts;
    var r := Request("a.example", A, "", false, 0);
    assert [r][..0] == [];
    assert Run([r]) == Step(START, r);
  }

  // ---- Lookups ----

  lemma MintedIsFake(h: History, a: Addr)
    requires Inv(h) && a in h.minted
    ensures IsFakeIP(a) && a.Unmap() == a && WasIssued(h.s, a)
  {
    MintCounts(h);
    hide Inv;
    CountedIsFake(a, h.s.next4, h.s.next6);
    NotMapped(a, h.s.next4, h.s.next6);
    IssuedIffCounted(h.s, a);
  }

  lemma NotMapped(a: Addr, next4: nat, next6: nat)
    requires Counted(a, next4, next6)
    ensures !a.Is4In6()
  {
    hide Fake6;
    if a.V6? {
      var i: uint32 :| 1 <= i <= next6 && a == Fake6(i);
      Fake6Fields(i);
    }
  }

  /** What an entry says of the name it was made for. */
  predicate Tells(e: Entry, name: Name) {
    e.host == name.host && name.scope == if e.scoped then Some(e.scope) else None
  }

  /** A lookup can only ever answer with the name the address was minted for. */
  lemma LookupIsMinted(rs: seq<Request>, a: Addr, now: int)
    requires Run(rs).tries4 < 0x1_0000_0000 && Run(rs).tries6 < 0x1_0000_0000
    ensures var e := Lookup(Run(rs).s, a, now);
            e.Some? ==> a.Unmap() in Run(rs).minted && Tells(e.value, Run(rs).minted[a.Unmap()]) && e.value.expires > now
  {
    InvRun(rs);
    hide Run, Counted, KeyOf;
    var h := Run(rs);
    if Lookup(h.s, a, now).Some? {
      assert Described(h, a.Unmap());
    }
  }

  /** And until the lease ends it does answer: an address just allocated is looked
      up as a name with the requested key, and so as the requested name, unless
      slashes made two names share the key. */
  lemma AllocatedIsFound(h: History, r: Request, t: int)
    requires Inv(h) && t < r.now + LEASE
    requires Step(h, r).tries4 < 0x1_0000_0000 && Step(h, r).tries6 < 0x1_0000_0000
    requires Allocate(h.s, r.host, r.kind, r.scope, r.scoped, r.now).1.Some?
    ensures var ip := Allocate(h.s, r.host, r.kind, r.scope, r.scoped, r.now).1.value;
            var e := Lookup(Step(h, r).s, ip, t);
            && e.Some? && e.value.expires == r.now + LEASE
            && ip in Step(h, r).minted && Tells(e.value, Step(h, r).minted[ip])
            && KeyOf(Step(h, r).minted[ip]) == KeyOf(r.Wanted())
            && (Apart({Step(h, r).minted[ip], r.Wanted()}) ==> Tells(e.value, r.Wanted()))
  {
    InvStep(h, r);
    AllocatedIsBound(h, r);
    var h' := Step(h, r);
    hide Step, Allocate, Inv, KeyOf;
    var ip := Allocate(h.s, r.host, r.kind, r.scope, r.scoped, r.now).1.value;
    LastGrant(h', ip, r.Wanted());
    MintedIsFake(h', ip);
  }

  lemma AllocatedIsBound(h: History, r: Request)
    requires Allocate(h.s, r.host, r.kind, r.scope, r.scoped, r.now).1.Some?
    ensures var ip := Allocate(h.s, r.host, r.kind, r.scope, r.scoped, r.now).1.value;
            var h' := Step(h, r);
            && ip in h'.s.byIP && h'.s.byIP[ip].expires == r.now + LEASE
            && h'.grants != [] && h'.grants[|h'.grants| - 1] == (ip, r.Wanted())
  {
    hide KeyOf, Mint, Pruned, Forgotten;
  }

  lemma LastGrant(h: History, ip: Addr, name: Name)
    requires Inv(h) && h.grants != [] && h.grants[|h.grants| - 1] == (ip, name) && ip in h.s.byIP
    ensures ip in h.minted && KeyOf(h.minted[ip]) == KeyOf(name) && Tells(h.s.byIP[ip], h.minted[ip])
  {
    hide Counted, KeyOf;
    assert Described(h, ip);
  }

  /** Once minted an address stays issued, and stays its name's, for good. */
  lemma MintedStaysIssued(rs: seq<Request>, more: seq<Request>, a: Addr)
    requires Run(rs + more).tries4 < 0x1_0000_0000 && Run(rs + more).tries6 < 0x1_0000_0000
    requires a in Run(rs).minted
    ensures a in Run(rs + more).minted && Run(rs + more).minted[a] == Run(rs).minted[a]
    ensures WasIssued(Run(rs + more).s, a)
  {
    hide Inv, Run, WasIssued;
    MintedStays(rs, more, a);
    InvRun(rs + more);
    MintedIsFake(Run(rs + more), a);
  }

  lemma {:induction false} MintedStays(rs: seq<Request>, more: seq<Request>, a: Addr)
    requires Run(rs + more).tries4 < 0x1_0000_0000 && Run(rs + more).tries6 < 0x1_0000_0000
    requires a in Run(rs).minted
    ensures a in Run(rs + more).minted && Run(rs + more).minted[a] == Run(rs).minted[a]
    decreases |more|
  {
    hide Inv, Run, Step;
    if more == [] {
      assert rs + more == rs;
    } else {
      var init, all := more[..|more| - 1], rs + more;
      assert all[..|all| - 1] == rs + init;
      TriesGrow(all);
      MintedStays(rs, init, a);
      InvRun(rs + init);
      RunLast(all);
      InvStep(Run(rs + init), all[|all| - 1]);
    }
  }

  lemma RunLast(rs: seq<Request>)
    requires rs != []
    ensures Run(rs) == Step(Run(rs[..|rs| - 1]), rs[|rs| - 1])
  {
  }

  // ---- When an address is granted ----

  /** The addresses of other keys that are not expired. */
  ghost function OthersLive(s: State, key: string, now: int): set<Addr> {
    set a | a in s.byIP && !(key in s.byName && s.byName[key] == a) && s.byIP[a].expires > now
  }

  /** A request is granted exactly when its name is live, or fewer than 32768 other addresses
      are and the family's numbers are not used up: 131070 of IPv4, 2^32 - 1 of IPv6. */
  lemma GrantedIff(rs: seq<Request>, r: Request)
    requires Run(rs + [r]).tries4 < 0x1_0000_0000 && Run(rs + [r]).tries6 < 0x1_0000_0000
    ensures var h, h' := Run(rs), Run(rs + [r]);
            (h'.grants != h.grants <==>
               || Live(h.s, KeyOf(r.Wanted()), r.now)
               || (&& |OthersLive(h.s, KeyOf(r.Wanted()), r.now)| < 32768
                   && if r.kind == A then h.tries4 < 131070 else h.tries6 < 0xffff_ffff))
            && (h'.grants != h.grants ==> exists ip :: h'.grants == h.grants + [(ip, r.Wanted())])
  {
    hide KeyOf, Step, Inv, Allocate, Live, Attempts, OthersLive, Numbered, CanCount;
    assert (rs + [r])[..|rs|] == rs;
    TriesGrow(rs + [r]);
    InvRun(rs);
    var h := Run(rs);
    assert Run(rs + [r]) == Step(h, r);
    hide Run;
    GrantsMore(h, r);
    AllocatesIff(h.s, r);
    if Attempts(h.s, r) {
      TriesCount(h, r);
      NumbersLeft(h, r.kind);
    }
    if !Live(h.s, KeyOf(r.Wanted()), r.now) {
      RoomIff(h, r);
    }
  }

  lemma NumbersLeft(h: History, kind: Kind)
    requires Inv(h) && CanCount(h, kind)
    ensures Numbered(h.s, kind) <==> if kind == A then h.tries4 < 131070 else h.tries6 < 0xffff_ffff
  {
    hide Counted, KeyOf;
  }

  lemma GrantsMore(h: History, r: Request)
    ensures var (s, ip) := Allocate(h.s, r.host, r.kind, r.scope, r.scoped, r.now);
            && (ip.Some? <==> Step(h, r).grants != h.grants)
            && (ip.Some? ==> Step(h, r).grants == h.grants + [(ip.value, r.Wanted())])
  {
    hide Allocate, Attempts;
    var (s, ip) := Allocate(h.s, r.host, r.kind, r.scope, r.scoped, r.now);
    if ip.Some? {
      assert |h.grants + [(ip.value, r.Wanted())]| == |h.grants| + 1;
    }
  }

  lemma AllocatesIff(s: State, r: Request)
    ensures Allocate(s, r.host, r.kind, r.scope, r.scoped, r.now).1.Some? <==>
              || Live(s, KeyOf(r.Wanted()), r.now)
              || (Attempts(s, r) && Numbered(s, r.kind))
  {
    hide KeyOf, Pruned, Forgotten, Fake4, Fake6;
    if !Live(s, KeyOf(r.Wanted()), r.now) {
      var s1 := Reclaimed(Forgotten(s, KeyOf(r.Wanted())), r.now);
      assert s1.next4 == s.next4 && s1.next6 == s.next6 by {
        NumbersStay(s, KeyOf(r.Wanted()), r.now);
      }
    }
  }

  /** The family has a number left. */
  predicate Numbered(s: State, kind: Kind) {
    if kind == A then (s.next4 + 1) % 0x1_0000_0000 <= 131070 else (s.next6 + 1) % 0x1_0000_0000 != 0
  }

  lemma NumbersStay(s: State, key: string, now: int)
    ensures var s1 := Reclaimed(Forgotten(s, key), now); s1.next4 == s.next4 && s1.next6 == s.next6
  {
  }

  lemma RoomIff(h: History, r: Request)
    requires !Live(h.s, KeyOf(r.Wanted()), r.now)
    ensures Attempts(h.s, r) <==> |OthersLive(h.s, KeyOf(r.Wanted()), r.now)| < 32768
  {
    hide KeyOf;
    hide Live, OthersLive, Pruned, Forgotten;
    var key := KeyOf(r.Wanted());
    var s1 := Forgotten(h.s, key);
    var live := OthersLive(h.s, key, r.now);
    LiveLeft(h.s, key, r.now);
    assert |s1.byIP| == |s1.byIP.Keys|;
    SubsetSize(live, s1.byIP.Keys);
    var s2 := Pruned(s1, r.now);
    assert |s2.byIP| == |s2.byIP.Keys|;
  }

  lemma LiveLeft(s: State, key: string, now: int)
    ensures OthersLive(s, key, now) <= Forgotten(s, key).byIP.Keys
    ensures Pruned(Forgotten(s, key), now).byIP.Keys == OthersLive(s, key, now)
  {
  }

  /** The family fits the question: an A question gets an IPv4 address of the range, an AAAA
      question an IPv6 one. */
  lemma GrantedFamily(rs: seq<Request>, r: Request)
    requires Run(rs + [r]).tries4 < 0x1_0000_0000 && Run(rs + [r]).tries6 < 0x1_0000_0000
    requires Attempts(Run(rs).s, r) && Allocate(Run(rs).s, r.host, r.kind, r.scope, r.scoped, r.now).1.Some?
    ensures var ip := Allocate(Run(rs).s, r.host, r.kind, r.scope, r.scoped, r.now).1.value;
            if r.kind == A then ip.V4? && ip.v4[0] == 198 && (ip.v4[1] == 18 || ip.v4[1] == 19)
            else ip.V6? && ip.v6[..12] == [0x20, 0x01, 0x0d, 0xb8, 0x01, 0x98, 0, 0x18, 0, 0, 0, 0]
  {
    hide KeyOf, Run, Pruned, Forgotten;
    var n := (Run(rs).s.next6 + 1) % 0x1_0000_0000;
    Fake6Fields(n);
  }
}
