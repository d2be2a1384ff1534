/** The Linux output chain and its DNS guard: installation rule by rule, guard
    updates of which every command can fail, and what packets meet. */
module DnsGuard {
  import opened Addresses

  datatype Proto = Tcp | Udp

  datatype Target = Return | Queue(bypass: bool)

  /** The rules the program writes: `dport` compares with port 53. */
  datatype Rule =
    | MarkReturn
    | DnsQueue(proto: Proto, bypass: bool)
    | DnsReturn(proto: Proto)
    | RelayReturn(proto: Proto, relay: Addr)
    | GenericQueue(proto: Proto)
  {
    function Target(): Target {
      match this
      case DnsQueue(_, bypass) => Queue(bypass)
      case GenericQueue(_) => Queue(true)
      case _ => Return
    }
  }

  /** An output packet as the chain sees it; OtherProto is neither TCP nor UDP. */
  datatype Packet = Packet(marked: bool, proto: Option<Proto>, port53: bool, destination: Addr)

  predicate Matches(r: Rule, p: Packet) {
    match r
    case MarkReturn => p.marked
    case DnsQueue(proto, _) => p.proto == Some(proto) && p.port53
    case DnsReturn(proto) => p.proto == Some(proto) && p.port53
    case RelayReturn(proto, relay) => p.proto == Some(proto) && !p.port53 && p.destination == relay
    case GenericQueue(proto) => p.proto == Some(proto)
  }

  type Chain = seq<Rule>

  function RelayRules(relays: seq<Addr>): Chain {
    if relays == [] then [] else [RelayReturn(Tcp, relays[0]), RelayReturn(Udp, relays[0])] + RelayRules(relays[1..])
  }

  /** The relays of one address family, of those that parse; a mapped IPv4 address
      counts as IPv6. */
  function FamilyRelays(parsed: seq<Option<Addr>>, six: bool): seq<Addr> {
    if parsed == [] then []
    else
      var last := parsed[|parsed| - 1];
      FamilyRelays(parsed[..|parsed| - 1], six) + if last.Some? && last.value.V6? == six then [last.value] else []
  }

  /** The chain with the given DNS rules, which are rules 2 and 4. */
  function Layout(tcpBypass: bool, udpBypass: bool, relays: seq<Addr>): (c: Chain)
    ensures |c| >= 7 && c[0] == MarkReturn
    ensures c[1] == DnsQueue(Tcp, tcpBypass) && c[3] == DnsQueue(Udp, udpBypass)
  {
    [MarkReturn, DnsQueue(Tcp, tcpBypass), DnsReturn(Tcp), DnsQueue(Udp, udpBypass), DnsReturn(Udp)]
    + RelayRules(relays) + [GenericQueue(Tcp), GenericQueue(Udp)]
  }

  // ---- Packets ----

  /** What becomes of a packet: handed to the agent, let through or dropped. A
      queue without a listener drops, or with --queue-bypass goes on. */
  datatype Fate = ToAgent | Passed | Dropped

  function FateOf(c: Chain, p: Packet, listening: bool): Fate {
    if c == [] then Passed
    else if !Matches(c[0], p) then FateOf(c[1..], p, listening)
    else match c[0].Target()
      case Return => Passed
      case Queue(bypass) => if listening then ToAgent else if bypass then FateOf(c[1..], p, listening) else Dropped
  }

  /** The target of the first rule a packet matches. */
  function FirstTarget(c: Chain, p: Packet): Option<Target> {
    if c == [] then None else if Matches(c[0], p) then Some(c[0].Target()) else FirstTarget(c[1..], p)
  }

  lemma First(r: Rule, rest: Chain, p: Packet, listening: bool)
    ensures FirstTarget([r] + rest, p) == if Matches(r, p) then Some(r.Target()) else FirstTarget(rest, p)
    ensures FateOf([r] + rest, p, listening) ==
            if !Matches(r, p) then FateOf(rest, p, listening)
            else if r.Target() == Return then Passed
            else if listening then ToAgent
            else if r.Target().bypass then FateOf(rest, p, listening) else Dropped
  {
    assert ([r] + rest)[1..] == rest;
  }

  lemma TcpOrUdp(p: Packet)
    ensures p.proto == None || p.proto == Some(Tcp) || p.proto == Some(Udp)
  {
    assert p.proto.Some? ==> p.proto.value.Tcp? || p.proto.value.Udp?;
  }

  predicate ToRelay(relays: seq<Addr>, p: Packet) {
    !p.port53 && p.destination in relays
  }

  lemma {:induction false} BehindRelays(relays: seq<Addr>, rest: Chain, p: Packet, listening: bool)
    ensures FirstTarget(RelayRules(relays) + rest, p) ==
            if p.proto.Some? && ToRelay(relays, p) then Some(Return) else FirstTarget(rest, p)
    ensures FateOf(RelayRules(relays) + rest, p, listening) ==
            if p.proto.Some? && ToRelay(relays, p) then Passed else FateOf(rest, p, listening)
  {
    if relays == [] {
      assert RelayRules(relays) + rest == rest;
    } else {
      hide FirstTarget, FateOf;
      TcpOrUdp(p);
      var tail := RelayRules(relays[1..]) + rest;
      assert RelayRules(relays) + rest == [RelayReturn(Tcp, relays[0])] + ([RelayReturn(Udp, relays[0])] + tail);
      First(RelayReturn(Tcp, relays[0]), [RelayReturn(Udp, relays[0])] + tail, p, listening);
      First(RelayReturn(Udp, relays[0]), tail, p, listening);
      BehindRelays(relays[1..], rest, p, listening);
    }
  }

  /** The rules behind the DNS rules. */
  function Rest(relays: seq<Addr>): Chain {
    RelayRules(relays) + [GenericQueue(Tcp), GenericQueue(Udp)]
  }

  lemma BehindDns(relays: seq<Addr>, p: Packet, listening: bool)
    ensures FirstTarget(Rest(relays), p) ==
            if p.proto.None? then None else if ToRelay(relays, p) then Some(Return) else Some(Queue(true))
    ensures FateOf(Rest(relays), p, listening) ==
            if p.proto.None? || ToRelay(relays, p) || !listening then Passed else ToAgent
  {
    hide FirstTarget, FateOf, RelayRules;
    TcpOrUdp(p);
    BehindRelays(relays, [GenericQueue(Tcp), GenericQueue(Udp)], p, listening);
    First(GenericQueue(Tcp), [GenericQueue(Udp)], p, listening);
    First(GenericQueue(Udp), [], p, listening);
    Nothing(p, listening);
    assert [GenericQueue(Tcp)] + [GenericQueue(Udp)] == [GenericQueue(Tcp), GenericQueue(Udp)];
    assert [GenericQueue(Udp)] + [] == [GenericQueue(Udp)];
  }

  lemma Nothing(p: Packet, listening: bool)
    ensures FirstTarget([], p) == None && FateOf([], p, listening) == Passed
  {
  }

  /** The chain in terms of its rules, first to last. */
  lemma Unrolled(tcpBypass: bool, udpBypass: bool, relays: seq<Addr>)
    ensures Layout(tcpBypass, udpBypass, relays) ==
            [MarkReturn] + ([DnsQueue(Tcp, tcpBypass)] + ([DnsReturn(Tcp)]
            + ([DnsQueue(Udp, udpBypass)] + ([DnsReturn(Udp)] + Rest(relays)))))
  {
  }

  /** The whole chain in closed form: marked packets return, port 53 meets its own
      queue before any relay exemption, relays are exempt on other ports only. */
  lemma ChainInClosedForm(tcpBypass: bool, udpBypass: bool, relays: seq<Addr>, p: Packet)
    ensures FirstTarget(Layout(tcpBypass, udpBypass, relays), p) ==
            if p.marked then Some(Return)
            else if p.proto.None? then None
            else if p.port53 then Some(Queue(if p.proto == Some(Tcp) then tcpBypass else udpBypass))
            else if p.destination in relays then Some(Return)
            else Some(Queue(true))
  {
    hide Layout, Rest, FirstTarget, FateOf;
    TcpOrUdp(p);
    Unrolled(tcpBypass, udpBypass, relays);
    var r4 := [DnsReturn(Udp)] + Rest(relays);
    var r3 := [DnsQueue(Udp, udpBypass)] + r4;
    var r2 := [DnsReturn(Tcp)] + r3;
    var r1 := [DnsQueue(Tcp, tcpBypass)] + r2;
    First(MarkReturn, r1, p, true);
    First(DnsQueue(Tcp, tcpBypass), r2, p, true);
    First(DnsReturn(Tcp), r3, p, true);
    First(DnsQueue(Udp, udpBypass), r4, p, true);
    First(DnsReturn(Udp), Rest(relays), p, true);
    BehindDns(relays, p, true);
  }

  /** What becomes of every unmarked packet. With no agent listening a DNS packet
      gets out just when its rule has --queue-bypass: the protected mode fails
      closed, for relays too, and nothing else is ever dropped. */
  lemma GuardFailsClosed(tcpBypass: bool, udpBypass: bool, relays: seq<Addr>, p: Packet, listening: bool)
    requires !p.marked && p.proto.Some?
    ensures FateOf(Layout(tcpBypass, udpBypass, relays), p, listening) ==
            if p.port53 && listening then ToAgent
            else if p.port53 then (if (if p.proto == Some(Tcp) then tcpBypass else udpBypass) then Passed else Dropped)
            else if p.destination in relays || !listening then Passed
            else ToAgent
  {
    hide Layout, Rest, FirstTarget, FateOf;
    TcpOrUdp(p);
    Unrolled(tcpBypass, udpBypass, relays);
    var r4 := [DnsReturn(Udp)] + Rest(relays);
    var r3 := [DnsQueue(Udp, udpBypass)] + r4;
    var r2 := [DnsReturn(Tcp)] + r3;
    var r1 := [DnsQueue(Tcp, tcpBypass)] + r2;
    First(MarkReturn, r1, p, listening);
    First(DnsQueue(Tcp, tcpBypass), r2, p, listening);
    First(DnsReturn(Tcp), r3, p, listening);
    First(DnsQueue(Udp, udpBypass), r4, p, listening);
    First(DnsReturn(Udp), Rest(relays), p, listening);
    BehindDns(relays, p, listening);
  }

  // ---- Installation ----

  datatype Command =
    | NewOutput | NewInput | AppendOutput(rule: Rule) | AppendInput | HookOutput | HookInput

  /** The output chain, if there is one, after a command that succeeds. */
  function Applied(command: Command, output: Option<Chain>): Option<Chain> {
    match command
    case NewOutput => Some([])
    case AppendOutput(rule) => Some(output.GetOr([]) + [rule])
    case _ => output
  }

  /** One address family's kernel tables, as far as they are the program's. Every
      command may fail; a failed command changes nothing. */
  class Kernel {
    var output: Option<Chain>
    var hooked: bool
    ghost var failures: nat

    constructor ()
      ensures output == None && !hooked && failures == 0
    {
      output, hooked, failures := None, false, 0;
    }

    method Apply(command: Command) returns (ok: bool)
      modifies this
      ensures ok ==> failures == old(failures)
      ensures ok ==> output == Applied(command, old(output))
      ensures ok ==> hooked == (if command == HookOutput then true else old(hooked))
      ensures !ok ==> failures == old(failures) + 1 && output == old(output) && hooked == old(hooked)
    {
      ok := *;
      if !ok {
        failures := failures + 1;
        return;
      }
      match command {
        case NewOutput => output := Some([]);
        case AppendOutput(rule) => output := Some(output.GetOr([]) + [rule]);
        case HookOutput => hooked := true;
        case _ =>
      }
    }

    /** -R: replaces rule `index`, counted from zero. */
    method ReplaceRule(index: nat, rule: Rule) returns (ok: bool)
      requires output.Some? && index < |output.value|
      modifies this
      ensures hooked == old(hooked) && output.Some?
      ensures ok ==> output.value == old(output.value)[index := rule] && failures == old(failures)
      ensures !ok ==> output == old(output) && failures == old(failures) + 1
    {
      ok := *;
      if ok {
        output := Some(output.value[index := rule]);
      } else {
        failures := failures + 1;
      }
    }

    /** cleanupFamily, assumed to reach its goal when a command fails half-way. */
    method Cleanup()
      modifies this`output, this`hooked
      ensures output == None && !hooked
    {
      output, hooked := None, false;
    }
  }

  /** The output chain after a list of commands that all succeeded. */
  function After(commands: seq<Command>, output: Option<Chain>): Option<Chain> {
    if commands == [] then output
    else After(commands[1..], Applied(commands[0], output))
  }

  lemma AfterFirst(command: Command, rest: seq<Command>, output: Option<Chain>)
    ensures After([command] + rest, output) == After(rest, Applied(command, output))
  {
    assert ([command] + rest)[1..] == rest;
  }

  lemma AfterNothing(output: Option<Chain>)
    ensures After([], output) == output
  {
  }

  lemma {:induction false} AfterConcat(a: seq<Command>, b: seq<Command>, output: Option<Chain>)
    ensures After(a + b, output) == After(b, After(a, output))
  {
    if a == [] {
      assert a + b == b;
    } else {
      assert (a + b)[1..] == a[1..] + b;
      AfterConcat(a[1..], b, Applied(a[0], output));
    }
  }

  /** One more command of a list. */
  lemma AfterMore(commands: seq<Command>, command: Command)
    ensures After(commands + [command], None) == Applied(command, After(commands, None))
  {
    AfterConcat(commands, [command], None);
    AfterFirst(command, [], After(commands, None));
    AfterNothing(Applied(command, After(commands, None)));
    hide After, Applied;
    assert [command] + [] == [command];
  }

  lemma {:induction false} RelayRulesMore(relays: seq<Addr>, relay: Addr)
    ensures RelayRules(relays + [relay]) == RelayRules(relays) + [RelayReturn(Tcp, relay), RelayReturn(Udp, relay)]
  {
    if relays == [] {
      assert [relay][1..] == [] && RelayRules([relay][1..]) == [];
    } else {
      assert (relays + [relay])[1..] == relays[1..] + [relay];
      RelayRulesMore(relays[1..], relay);
    }
  }

  /** Not yet hooked into the kernel's own chain. */
  predicate Unhooked(commands: seq<Command>) {
    HookOutput !in commands
  }

  method AppendRule(commands: seq<Command>, rule: Rule) returns (more: seq<Command>)
    requires After(commands, None).Some? && Unhooked(commands)
    ensures more == commands + [AppendOutput(rule)] && Unhooked(more)
    ensures After(more, None) == Some(After(commands, None).value + [rule])
  {
    more := commands + [AppendOutput(rule)];
    AfterMore(commands, AppendOutput(rule));
    hide After;
  }

  method AppendOther(commands: seq<Command>, command: Command) returns (more: seq<Command>)
    requires After(commands, None).Some? && (command == AppendInput || command == NewInput)
    requires Unhooked(commands)
    ensures more == commands + [command] && Unhooked(more) && After(more, None) == After(commands, None)
  {
    more := commands + [command];
    AfterMore(commands, command);
    hide After;
  }

  /** The rules of the first loop for these protocols. */
  function DnsRules(protocols: seq<Proto>, bypass: bool): Chain {
    if protocols == [] then []
    else
      var last := protocols[|protocols| - 1];
      DnsRules(protocols[..|protocols| - 1], bypass) + [DnsQueue(last, bypass), DnsReturn(last)]
  }

  function GenericRules(protocols: seq<Proto>): Chain {
    if protocols == [] then [] else GenericRules(protocols[..|protocols| - 1]) + [GenericQueue(protocols[|protocols| - 1])]
  }

  /** The three loops' rules one after the other are the layout. */
  lemma LoopsGiveLayout(bypass: bool, relays: seq<Addr>)
    ensures [MarkReturn] + DnsRules([Tcp, Udp], bypass) + RelayRules(relays) + GenericRules([Tcp, Udp]) == Layout(bypass, bypass, relays)
  {
    BothProtocols(bypass);
    hide RelayRules, DnsRules, GenericRules;
  }

  lemma BothProtocols(bypass: bool)
    ensures DnsRules([Tcp, Udp], bypass) == [DnsQueue(Tcp, bypass), DnsReturn(Tcp), DnsQueue(Udp, bypass), DnsReturn(Udp)]
    ensures GenericRules([Tcp, Udp]) == [GenericQueue(Tcp), GenericQueue(Udp)]
  {
    var both := [Tcp, Udp];
    assert both[..1] == [Tcp] && [Tcp][..0] == [];
    assert DnsRules([], bypass) == [] && GenericRules([]) == [];
    assert DnsRules([Tcp], bypass) == [DnsQueue(Tcp, bypass), DnsReturn(Tcp)] && GenericRules([Tcp]) == [GenericQueue(Tcp)];
  }

  /** installFamily's command list, loop by loop. Its commands build exactly the
      layout, and the complete chain only is hooked in. */
  method BuildCommands(guard: bool, six: bool, relayIPs: seq<Option<Addr>>) returns (commands: seq<Command>)
    ensures After(commands, None) == Some(Layout(!guard, !guard, FamilyRelays(relayIPs, six)))
    ensures |commands| >= 2 && commands[|commands| - 2..] == [HookOutput, HookInput] && Unhooked(commands[..|commands| - 2])
  {
    hide After, Layout, Unhooked, DnsRules, RelayRules, FamilyRelays, GenericRules;
    var relays := FamilyRelays(relayIPs, six);
    commands := Created();
    commands := AppendRule(commands, MarkReturn);
    commands := AppendOther(commands, AppendInput);
    assert [] + [MarkReturn] == [MarkReturn];
    commands := AppendDns(commands, guard, [MarkReturn]);
    commands := AppendRelays(commands, six, relayIPs, [MarkReturn] + DnsRules([Tcp, Udp], !guard));
    commands := AppendGeneric(commands, [MarkReturn] + DnsRules([Tcp, Udp], !guard) + RelayRules(relays));
    commands := AppendOther(commands, AppendInput);
    LoopsGiveLayout(!guard, relays);
    HookedLast(commands);
    commands := commands + [HookOutput, HookInput];
  }

  /** The first loop, over the protocols. */
  method AppendDns(before: seq<Command>, guard: bool, ghost front: Chain) returns (commands: seq<Command>)
    requires After(before, None) == Some(front) && Unhooked(before)
    ensures After(commands, None) == Some(front + DnsRules([Tcp, Udp], !guard)) && Unhooked(commands)
  {
    hide After, Unhooked;
    commands := before;
    var protocols := [Tcp, Udp];
    var n := 0;
    assert protocols[..0] == [] && front + DnsRules([], !guard) == front;
    while n < |protocols|
      invariant n <= |protocols| && protocols == [Tcp, Udp] && Unhooked(commands)
      invariant After(commands, None) == Some(front + DnsRules(protocols[..n], !guard))
    {
      ghost var chain := front + DnsRules(protocols[..n], !guard);
      var protocol := protocols[n];
      var bypass := false;
      if !guard {
        bypass := true;
      }
      commands := AppendRule(commands, DnsQueue(protocol, bypass));
      commands := AppendRule(commands, DnsReturn(protocol));
      assert protocols[..n + 1][..n] == protocols[..n];
      assert chain + [DnsQueue(protocol, bypass)] + [DnsReturn(protocol)]
             == front + (DnsRules(protocols[..n], !guard) + [DnsQueue(protocol, bypass), DnsReturn(protocol)]);
      n := n + 1;
    }
    assert protocols[..n] == protocols;
  }

  /** The second loop, over the relays of this family. */
  method AppendRelays(before: seq<Command>, six: bool, relayIPs: seq<Option<Addr>>, ghost front: Chain) returns (commands: seq<Command>)
    requires After(before, None) == Some(front) && Unhooked(before)
    ensures After(commands, None) == Some(front + RelayRules(FamilyRelays(relayIPs, six))) && Unhooked(commands)
  {
    hide After, Unhooked;
    commands := before;
    assert relayIPs[..0] == [] && RelayRules(FamilyRelays([], six)) == [] && front + [] == front;
    hide RelayRules, FamilyRelays;
    var n := 0;
    while n < |relayIPs|
      invariant n <= |relayIPs| && Unhooked(commands)
      invariant After(commands, None) == Some(front + RelayRules(FamilyRelays(relayIPs[..n], six)))
    {
      var raw := relayIPs[n];
      NextRelay(relayIPs, n, six, front);
      if raw.Some? && raw.value.V6? == six {
        commands := AppendRule(commands, RelayReturn(Tcp, raw.value));
        commands := AppendRule(commands, RelayReturn(Udp, raw.value));
      }
      n := n + 1;
    }
    assert relayIPs[..n] == relayIPs;
  }

  /** One more relay address, which may not parse or be of the other family. */
  lemma NextRelay(relayIPs: seq<Option<Addr>>, n: nat, six: bool, front: Chain)
    requires n < |relayIPs|
    ensures var raw := relayIPs[n];
            front + RelayRules(FamilyRelays(relayIPs[..n + 1], six)) ==
            if raw.Some? && raw.value.V6? == six
            then front + RelayRules(FamilyRelays(relayIPs[..n], six)) + [RelayReturn(Tcp, raw.value)] + [RelayReturn(Udp, raw.value)]
            else front + RelayRules(FamilyRelays(relayIPs[..n], six))
  {
    hide RelayRules;
    var raw, before := relayIPs[n], FamilyRelays(relayIPs[..n], six);
    assert relayIPs[..n + 1][..n] == relayIPs[..n];
    if raw.Some? && raw.value.V6? == six {
      RelayRulesMore(before, raw.value);
    } else {
      assert before + [] == before;
    }
  }

  /** The third loop, over the protocols again. */
  method AppendGeneric(before: seq<Command>, ghost front: Chain) returns (commands: seq<Command>)
    requires After(before, None) == Some(front) && Unhooked(before)
    ensures After(commands, None) == Some(front + GenericRules([Tcp, Udp])) && Unhooked(commands)
  {
    hide After, Unhooked;
    commands := before;
    var protocols := [Tcp, Udp];
    assert protocols[..0] == [] && front + GenericRules([]) == front;
    var n := 0;
    while n < |protocols|
      invariant n <= |protocols| && protocols == [Tcp, Udp] && Unhooked(commands)
      invariant After(commands, None) == Some(front + GenericRules(protocols[..n]))
    {
      commands := AppendRule(commands, GenericQueue(protocols[n]));
      assert protocols[..n + 1][..n] == protocols[..n];
      assert front + GenericRules(protocols[..n]) + [GenericQueue(protocols[n])]
             == front + (GenericRules(protocols[..n]) + [GenericQueue(protocols[n])]);
      n := n + 1;
    }
    assert protocols[..n] == protocols;
  }

  method Created() returns (commands: seq<Command>)
    ensures After(commands, None) == Some([]) && Unhooked(commands)
  {
    commands := [NewOutput, NewInput];
    AfterFirst(NewOutput, [NewInput], None);
    AfterFirst(NewInput, [], Some([]));
    AfterNothing(Some([]));
    assert [NewOutput] + [NewInput] == [NewOutput, NewInput] && [NewInput] + [] == [NewInput];
  }

  lemma HookedLast(commands: seq<Command>)
    ensures After(commands + [HookOutput, HookInput], None) == After(commands, None)
    ensures (commands + [HookOutput, HookInput])[..|commands|] == commands
  {
    AfterMore(commands, HookOutput);
    AfterMore(commands + [HookOutput], HookInput);
    assert commands + [HookOutput] + [HookInput] == commands + [HookOutput, HookInput];
  }

  /** installFamily: the whole chain or nothing; and in between the kernel's chain
      never leads to an incomplete one. */
  method InstallFamily(kernel: Kernel, six: bool, guard: bool, relayIPs: seq<Option<Addr>>) returns (ok: bool)
    requires kernel.output == None && !kernel.hooked
    modifies kernel
    ensures ok ==> kernel.output == Some(Layout(!guard, !guard, FamilyRelays(relayIPs, six))) && kernel.hooked
    ensures !ok ==> kernel.output == None && !kernel.hooked
    ensures ok <==> kernel.failures == old(kernel.failures)
  {
    hide Layout, FamilyRelays;
    var commands := BuildCommands(guard, six, relayIPs);
    var n := 0;
    while n < |commands|
      invariant n <= |commands| && kernel.failures == old(kernel.failures)
      invariant After(commands, None) == After(commands[n..], kernel.output)
      invariant kernel.hooked ==> n > |commands| - 2 && kernel.output == After(commands, None)
      invariant n > |commands| - 2 ==> kernel.hooked
    {
      assert commands[n..][0] == commands[n] && commands[n..][1..] == commands[n + 1..];
      if n < |commands| - 2 {
        assert commands[n] == commands[..|commands| - 2][n];
      } else {
        assert commands[n] == commands[|commands| - 2..][n - (|commands| - 2)];
        LastCommands(commands, n, kernel.output);
      }
      var done := kernel.Apply(commands[n]);
      if !done {
        kernel.Cleanup();
        return false;
      }
      n := n + 1;
    }
    return true;
  }

  /** The last two commands leave the output chain as it is. */
  lemma LastCommands(commands: seq<Command>, n: nat, output: Option<Chain>)
    requires |commands| >= 2 && commands[|commands| - 2..] == [HookOutput, HookInput] && |commands| - 2 <= n < |commands|
    ensures After(commands[n..], output) == output && After(commands[n + 1..], output) == output
  {
    AfterFirst(HookOutput, [HookInput], output);
    AfterFirst(HookInput, [], output);
    AfterNothing(output);
    assert [HookOutput] + [HookInput] == [HookOutput, HookInput] && [HookInput] + [] == [HookInput];
    assert commands[|commands| - 1..] == [HookInput] && commands[|commands|..] == [];
  }

  // ---- Guard updates ----

  /** A DNS rule is named by its family (0 IPv4, 1 IPv6) and protocol. */
  datatype Key = Key(family: nat, proto: Proto)

  /** The firewall: which families are in use, the protection really installed in
      each DNS rule, the program's record of it, and its declared mode. */
  datatype Guard = Guard(families: nat, actual: map<Key, bool>, states: Option<map<Key, bool>>, dnsGuard: bool, closed: bool)

  function Keys(families: nat): set<Key> {
    (set f | 0 <= f < families :: Key(f, Tcp)) + (set f | 0 <= f < families :: Key(f, Udp))
  }

  datatype Outcome = Closed | Failed | Done

  function Known(g: Guard): map<Key, bool> {
    match g.states
    case Some(m) => m
    case None => map k | k in Keys(g.families) :: g.dnsGuard
  }

  /** setDNSGuardMode; `refused` holds the rules whose command fails. */
  function SetMode(g: Guard, protected: bool, refused: set<Key>): (Guard, Outcome) {
    if g.closed then (g, Closed) else
    var known := Known(g);
    var failing := set k | k in known && known[k] != protected && k in refused;
    var update := (m: map<Key, bool>) =>
      map k | k in m :: if k in known && known[k] != protected && k !in refused then protected else m[k];
    (g.(actual := update(g.actual), states := Some(update(known)), dnsGuard := if failing == {} then protected else g.dnsGuard),
     if failing == {} then Done else Failed)
  }

  /** A freshly installed firewall. */
  function Fresh(families: nat, guard: bool): Guard {
    Guard(families, map k | k in Keys(families) :: guard, None, guard, false)
  }

  function Run(families: nat, guard: bool, updates: seq<(bool, set<Key>)>): Guard {
    if updates == [] then Fresh(families, guard)
    else SetMode(Run(families, guard, updates[..|updates| - 1]), updates[|updates| - 1].0, updates[|updates| - 1].1).0
  }

  ghost predicate Inv(g: Guard) {
    && g.actual.Keys == Keys(g.families)
    && Known(g) == g.actual
    && (forall v :: AllAre(g, v) ==> g.dnsGuard == v)
  }

  /** Every DNS rule, of at least one, has protection `v`. */
  ghost predicate AllAre(g: Guard, v: bool) {
    g.actual != map[] && forall k :: k in g.actual ==> g.actual[k] == v
  }

  /** The rules whose command was run and failed. */
  function Failing(g: Guard, protected: bool, refused: set<Key>): set<Key> {
    set k | k in Known(g) && Known(g)[k] != protected && k in refused
  }

  lemma Effect(g: Guard, protected: bool, refused: set<Key>)
    requires Inv(g) && !g.closed
    ensures var (g', outcome) := SetMode(g, protected, refused);
            && g'.states == Some(g'.actual) && g'.actual.Keys == g.actual.Keys == Keys(g'.families)
            && (forall k :: k in g.actual ==>
                  g'.actual[k] == if k in refused then g.actual[k] else protected)
            && (outcome == Done <==> Failing(g, protected, refused) == {})
            && (outcome == Done ==> g'.dnsGuard == protected)
            && (outcome != Done ==> outcome == Failed && g'.dnsGuard == g.dnsGuard)
            && (forall k :: k in Failing(g, protected, refused) <==> k in g'.actual && g'.actual[k] != protected)
  {
    hide Keys;
  }

  lemma InvStep(g: Guard, protected: bool, refused: set<Key>)
    requires Inv(g)
    ensures Inv(SetMode(g, protected, refused).0)
  {
    hide Keys;
    var (g', outcome) := SetMode(g, protected, refused);
    if !g.closed {
      Effect(g, protected, refused);
      hide SetMode;
      forall v | AllAre(g', v) ensures g'.dnsGuard == v {
        var k :| k in g'.actual;
        if v != protected {
          forall k | k in g.actual ensures g.actual[k] == v {
            assert g'.actual[k] == v;
          }
          assert AllAre(g, v);
          assert k in Failing(g, protected, refused);
        }
      }
    }
  }

  /** After any updates with any failures the program's record of each DNS rule is
      the rule's actual protection. */
  lemma {:induction false} RecordIsReal(families: nat, guard: bool, updates: seq<(bool, set<Key>)>)
    ensures Inv(Run(families, guard, updates))
  {
    hide SetMode, Keys;
    if updates == [] {
      FreshInv(families, guard);
    } else {
      RecordIsReal(families, guard, updates[..|updates| - 1]);
      InvStep(Run(families, guard, updates[..|updates| - 1]), updates[|updates| - 1].0, updates[|updates| - 1].1);
    }
  }

  lemma FreshInv(families: nat, guard: bool)
    ensures Inv(Fresh(families, guard))
  {
    hide Keys;
    var g := Fresh(families, guard);
    forall v | AllAre(g, v) ensures g.dnsGuard == v {
      var k :| k in g.actual;
    }
  }

  /** Success means every rule has the wanted protection, and failure that some
      rule does not; what a retry without failures does is succeed. */
  lemma DoneMeansAll(g: Guard, protected: bool, refused: set<Key>)
    requires Inv(g) && !g.closed
    ensures var (g', outcome) := SetMode(g, protected, refused);
            && (outcome == Done <==> forall k :: k in g'.actual ==> g'.actual[k] == protected)
            && (outcome == Done ==> g'.dnsGuard == protected)
            && (forall k :: k in g.actual ==> g'.actual[k] == g.actual[k] || g'.actual[k] == protected)
            && SetMode(g', protected, {}).1 == Done
  {
    var (g', outcome) := SetMode(g, protected, refused);
    Effect(g, protected, refused);
    InvStep(g, protected, refused);
    Effect(g', protected, {});
    hide SetMode, Keys;
    if outcome == Failed {
      var j :| j in Failing(g, protected, refused);
      assert g'.actual[j] != protected;
    } else {
      forall k | k in g'.actual ensures g'.actual[k] == protected {
        assert k !in Failing(g, protected, refused);
      }
    }
  }

  /** dnsCaptureMode. */
  datatype Mode = Unavailable | PartialUpdate | NoBypass | Bypass

  function CaptureMode(g: Guard): Mode {
    if g.closed then Unavailable
    else if g.states.Some? && exists k :: k in g.states.value && g.states.value[k] != g.dnsGuard then PartialUpdate
    else if g.dnsGuard then NoBypass else Bypass
  }

  /** The reported mode is the truth about the installed rules. */
  lemma ModeIsTruth(g: Guard)
    requires Inv(g) && !g.closed && g.actual != map[]
    ensures CaptureMode(g) == NoBypass <==> forall k :: k in g.actual ==> g.actual[k]
    ensures CaptureMode(g) == Bypass <==> forall k :: k in g.actual ==> !g.actual[k]
    ensures CaptureMode(g) == PartialUpdate <==>
            exists j, k :: j in g.actual && k in g.actual && g.actual[j] && !g.actual[k]
  {
    hide Keys;
    assert g.states.Some? ==> g.states.value == g.actual;
    if AllAre(g, true) || AllAre(g, false) {
      var k :| k in g.actual;
      assert g.states.Some? ==> forall j :: j in g.states.value ==> g.states.value[j] == g.dnsGuard;
    } else {
      var i, j :| i in g.actual && j in g.actual && g.actual[i] && !g.actual[j];
      assert Known(g)[i] != Known(g)[j];
      assert g.states.Some?;
      assert g.states.value[i] != g.dnsGuard || g.states.value[j] != g.dnsGuard;
    }
  }

  // ---- The update on the chains themselves ----

  /** Family f's chain is the layout with the protection `actual` names. */
  predicate Laid(f: nat, output: Option<Chain>, actual: map<Key, bool>, relays: seq<Addr>) {
    Key(f, Tcp) in actual && Key(f, Udp) in actual
    && output == Some(Layout(!actual[Key(f, Tcp)], !actual[Key(f, Udp)], relays))
  }

  /** The reported mode and the packets: whenever the program reports the no-bypass
      mode, after whatever updates and failures, an unmarked DNS packet of any
      family, to a relay or not, reaches the agent or is dropped. */
  lemma NoBypassMeansNoEscape(g: Guard, f: nat, output: Chain, relays: seq<Addr>, p: Packet, listening: bool)
    requires Inv(g) && !g.closed && CaptureMode(g) == NoBypass && Laid(f, Some(output), g.actual, relays)
    requires !p.marked && p.proto.Some? && p.port53
    ensures FirstTarget(output, p) == Some(Queue(false))
    ensures FateOf(output, p, listening) == if listening then ToAgent else Dropped
  {
    hide Layout, FirstTarget, FateOf;
    assert Key(f, Tcp) in g.actual;
    ModeIsTruth(g);
    GuardFailsClosed(!g.actual[Key(f, Tcp)], !g.actual[Key(f, Udp)], relays, p, listening);
    ChainInClosedForm(!g.actual[Key(f, Tcp)], !g.actual[Key(f, Udp)], relays, p);
  }

  lemma Replaced(f: nat, output: Chain, actual: map<Key, bool>, relays: seq<Addr>, proto: Proto, protected: bool)
    requires Laid(f, Some(output), actual, relays)
    ensures var index := if proto == Tcp then 1 else 3;
            && index < |output|
            && Laid(f, Some(output[index := DnsQueue(proto, !protected)]), actual[Key(f, proto) := protected], relays)
  {
    hide RelayRules;
    assert proto == Tcp || proto == Udp by { assert proto.Tcp? || proto.Udp?; }
    var actual' := actual[Key(f, proto) := protected];
    var index := if proto == Tcp then 1 else 3;
    assert output[index := DnsQueue(proto, !protected)]
           == Layout(!actual'[Key(f, Tcp)], !actual'[Key(f, Udp)], relays);
  }

  /** What the update has done once it has dealt with the families below f. */
  ghost predicate Upto(g: Guard, protected: bool, actual: map<Key, bool>, refused: set<Key>, f: nat) {
    && actual.Keys == g.actual.Keys
    && (forall k :: k in actual ==>
          actual[k] == if k.family < f && k !in refused then protected else g.actual[k])
    && (forall k :: k in refused ==> k in g.actual && k.family < f && g.actual[k] != protected)
  }

  lemma UptoNext(g: Guard, protected: bool, actual: map<Key, bool>, refused: set<Key>, f: nat,
                 tcp: bool, udp: bool, actual': map<Key, bool>, refused': set<Key>)
    requires Upto(g, protected, actual, refused, f) && Key(f, Tcp) in actual && Key(f, Udp) in actual
    requires !tcp ==> actual[Key(f, Tcp)] != protected
    requires !udp ==> actual[Key(f, Udp)] != protected
    requires forall k :: k in actual' <==> k in actual
    requires forall k :: k in actual ==>
               actual'[k] == if (k == Key(f, Tcp) && tcp) || (k == Key(f, Udp) && udp) then protected else actual[k]
    requires refused' == refused + (if tcp then {} else {Key(f, Tcp)}) + (if udp then {} else {Key(f, Udp)})
    ensures Upto(g, protected, actual', refused', f + 1)
  {
    forall k | k in actual && k.family == f ensures k == Key(f, Tcp) || k == Key(f, Udp) {
      assert k.proto.Tcp? || k.proto.Udp?;
    }
  }

  /** An update that went through every family is SetMode. */
  lemma UptoAll(g: Guard, protected: bool, actual: map<Key, bool>, refused: set<Key>, states: Option<map<Key, bool>>)
    requires Inv(g) && !g.closed && Upto(g, protected, actual, refused, g.families)
    requires states == Some(actual)
    ensures SetMode(g, protected, refused) ==
            (g.(actual := actual, states := states, dnsGuard := if refused == {} then protected else g.dnsGuard),
             if refused == {} then Done else Failed)
  {
    KeysBelow(g.families);
    Effect(g, protected, refused);
    var (g', outcome) := SetMode(g, protected, refused);
    assert g'.families == g.families && g'.closed == g.closed;
    hide SetMode, Keys;
    assert Failing(g, protected, refused) == refused;
    assert g'.actual == actual;
  }

  lemma KeysBelow(families: nat)
    ensures forall k :: k in Keys(families) ==> k.family < families
    ensures forall f :: 0 <= f < families ==> Key(f, Tcp) in Keys(families) && Key(f, Udp) in Keys(families)
  {
  }

  class LinuxFirewall {
    const kernels: seq<Kernel> // one for each family in use
    ghost const relays: seq<seq<Addr>>
    var dnsGuard: bool
    var dnsRuleStates: Option<map<Key, bool>>
    var dnsClosed: bool
    ghost var actual: map<Key, bool>

    ghost function Abs(): Guard
      reads this
    {
      Guard(|kernels|, actual, dnsRuleStates, dnsGuard, dnsClosed)
    }

    /** Every chain is the installed layout, except for the protection of rules 2
        and 4, which is what `actual` says. */
    ghost predicate LaidOut()
      reads this, kernels
    {
      && |relays| == |kernels|
      && (forall i, j :: 0 <= i < j < |kernels| ==> kernels[i] != kernels[j])
      && (forall f :: 0 <= f < |kernels| ==> Laid(f, kernels[f].output, actual, relays[f]))
    }

    ghost predicate Valid()
      reads this, kernels
    {
      LaidOut() && Inv(Abs())
    }

    constructor (kernels: seq<Kernel>, ghost relays: seq<seq<Addr>>, guard: bool)
      requires |relays| == |kernels| && forall i, j :: 0 <= i < j < |kernels| ==> kernels[i] != kernels[j]
      requires forall f :: 0 <= f < |kernels| ==> kernels[f].output == Some(Layout(!guard, !guard, relays[f]))
      ensures Valid() && this.kernels == kernels && Abs() == Fresh(|kernels|, guard)
    {
      this.kernels, this.relays := kernels, relays;
      dnsGuard, dnsRuleStates, dnsClosed := guard, None, false;
      actual := map k | k in Keys(|kernels|) :: guard;
      new;
      hide Layout, Keys;
      FreshInv(|kernels|, guard);
      KeysBelow(|kernels|);
    }

    /** One rule of setDNSGuardMode's inner loop. */
    method SetRule(f: nat, proto: Proto, protected: bool) returns (ok: bool)
      requires f < |kernels| && LaidOut() && dnsRuleStates == Some(actual)
      modifies this`dnsRuleStates, this`actual, kernels[f]
      ensures LaidOut() && dnsRuleStates == Some(actual)
      ensures Key(f, proto) in old(actual)
      ensures actual == if ok then old(actual)[Key(f, proto) := protected] else old(actual)
      ensures !ok ==> old(actual)[Key(f, proto)] != protected
      ensures kernels[f].failures == old(kernels[f].failures) + (if ok then 0 else 1)
    {
      hide Layout;
      var key := Key(f, proto);
      assert Laid(f, kernels[f].output, actual, relays[f]);
      assert proto == Tcp || proto == Udp by { assert proto.Tcp? || proto.Udp?; }
      if dnsRuleStates.value[key] == protected {
        assert actual[key := protected] == actual;
        return true;
      }
      Replaced(f, kernels[f].output.value, actual, relays[f], proto, protected);
      ok := kernels[f].ReplaceRule(if proto == Tcp then 1 else 3, DnsQueue(proto, !protected));
      if ok {
        dnsRuleStates := Some(dnsRuleStates.value[key := protected]);
        actual := actual[key := protected];
      }
    }

    /** Both rules of one family. */
    method SetFamily(f: nat, protected: bool, ghost g: Guard, ghost refused: set<Key>)
      returns (ok: bool, ghost refused': set<Key>)
      requires f < |kernels| && LaidOut() && dnsRuleStates == Some(actual) && Upto(g, protected, actual, refused, f)
      modifies this`dnsRuleStates, this`actual, kernels[f]
      ensures LaidOut() && dnsRuleStates == Some(actual) && Upto(g, protected, actual, refused', f + 1)
      ensures refused' >= refused && (ok <==> refused' == refused)
      ensures kernels[f].failures >= old(kernels[f].failures)
      ensures ok <==> kernels[f].failures == old(kernels[f].failures)
    {
      hide LaidOut, Inv, SetMode, Keys;
      var tcp := SetRule(f, Tcp, protected);
      var udp := SetRule(f, Udp, protected);
      refused' := refused + (if tcp then {} else {Key(f, Tcp)}) + (if udp then {} else {Key(f, Udp)});
      UptoNext(g, protected, old(actual), refused, f, tcp, udp, actual, refused');
      ok := tcp && udp;
      assert Key(f, Tcp) !in refused && Key(f, Udp) !in refused;
      assert !tcp ==> Key(f, Tcp) in refused';
      assert !udp ==> Key(f, Udp) in refused';
    }

    /** setDNSGuardMode: for some set of refused rules this is SetMode, and the set
        is empty when no command failed. */
    method SetDNSGuardMode(protected: bool) returns (outcome: Outcome, ghost refused: set<Key>)
      requires Valid()
      modifies this`dnsGuard, this`dnsRuleStates, this`actual, kernels
      ensures Valid() && (Abs(), outcome) == SetMode(old(Abs()), protected, refused)
      ensures (forall f :: 0 <= f < |kernels| ==> kernels[f].failures == old(kernels[f].failures)) ==> refused == {}
    {
      hide Laid, Keys, Upto, Inv, SetMode;
      refused := {};
      ghost var g := Abs();
      if dnsClosed {
        SetModeClosed(g, protected);
        return Closed, refused;
      }
      Begin(g, protected);
      if dnsRuleStates.None? {
        dnsRuleStates := Some(map k | k in Keys(|kernels|) :: dnsGuard);
      }
      var failed := false;
      var f := 0;
      while f < |kernels|
        invariant f <= |kernels| && dnsGuard == g.dnsGuard && !dnsClosed && LaidOut()
        invariant dnsRuleStates == Some(actual) && Upto(g, protected, actual, refused, f)
        invariant failed <==> refused != {}
        invariant failed ==> exists i :: 0 <= i < |kernels| && kernels[i].failures > old(kernels[i].failures)
        invariant forall i :: 0 <= i < |kernels| ==> kernels[i].failures >= old(kernels[i].failures)
      {
        var ok;
        ok, refused := SetFamily(f, protected, g, refused);
        if !ok {
          failed := true;
          assert kernels[f].failures > old(kernels[f].failures);
        }
        f := f + 1;
      }
      UptoAll(g, protected, actual, refused, dnsRuleStates);
      InvStep(g, protected, refused);
      if failed {
        return Failed, refused;
      }
      dnsGuard := protected;
      return Done, refused;
    }
  }

  lemma SetModeClosed(g: Guard, protected: bool)
    requires g.closed
    ensures SetMode(g, protected, {}) == (g, Closed)
  {
  }

  lemma Begin(g: Guard, protected: bool)
    requires Inv(g)
    ensures Known(g) == g.actual && Upto(g, protected, g.actual, {}, 0)
  {
  }
}
