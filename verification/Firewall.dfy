// The host firewall: a description compiled to two ordered chains, and what the chains let through.
module Firewall {
  import opened Prelude
  import Sorting

  // ---------------------------------------------------------------- packets and chains

  datatype Address = V4(bits: nat) | V6(bits: nat)

  datatype Conn = New | Established | Related | Invalid

  datatype Proto = Tcp(dport: int) | Udp(dport: int) | Icmp | Other

  /** `iface` is where the packet comes in, or goes out. */
  datatype Packet = Packet(iface: string, conn: Conn, saddr: Address, daddr: Address, proto: Proto)

  datatype Match =
    Iface(name: string) | Returning | IpIcmp | UdpTo(port: int) | TcpTo(port: int)
    | FromNet(net: string) | ToNet(net: string) | ToEgressSet

  datatype Verdict = Accept | Drop | Log

  datatype Rule = Rule(matches: seq<Match>, verdict: Verdict)

  datatype Chain = Chain(accepting: bool, rules: seq<Rule>)

  datatype Ruleset = Ruleset(egressOk: seq<string>, input: Chain, output: Chain)

  /** How addresses written in rules cover addresses of packets; not part of the program. */
  type Nets = (string, nat) -> bool

  predicate InNet(covers: Nets, net: string, a: Address) { a.V4? && covers(net, a.bits) }

  predicate Matches(m: Match, p: Packet, egressOk: seq<string>, covers: Nets) {
    match m
    case Iface(name) => p.iface == name
    case Returning => p.conn.Established? || p.conn.Related?
    case IpIcmp => p.saddr.V4? && p.proto.Icmp?
    case UdpTo(port) => p.proto == Udp(port)
    case TcpTo(port) => p.proto == Tcp(port)
    case FromNet(net) => InNet(covers, net, p.saddr)
    case ToNet(net) => InNet(covers, net, p.daddr)
    case ToEgressSet => exists net <- egressOk :: InNet(covers, net, p.daddr)
  }

  predicate Fires(r: Rule, p: Packet, egressOk: seq<string>, covers: Nets) {
    forall i | 0 <= i < |r.matches| :: Matches(r.matches[i], p, egressOk, covers)
  }

  /** What becomes of a packet, and whether it was logged on the way. */
  datatype Outcome = Outcome(accepted: bool, logged: bool)

  /** First match decides; a log rule records the packet and lets it go on. */
  function Run(rules: seq<Rule>, accepting: bool, p: Packet, egressOk: seq<string>, covers: Nets): Outcome {
    if rules == [] then Outcome(accepting, false)
    else if !Fires(rules[0], p, egressOk, covers) then Run(rules[1..], accepting, p, egressOk, covers)
    else if rules[0].verdict.Log? then Run(rules[1..], accepting, p, egressOk, covers).(logged := true)
    else Outcome(rules[0].verdict.Accept?, false)
  }

  function Incoming(r: Ruleset, p: Packet, covers: Nets): Outcome {
    Run(r.input.rules, r.input.accepting, p, r.egressOk, covers)
  }

  function Outgoing(r: Ruleset, p: Packet, covers: Nets): Outcome {
    Run(r.output.rules, r.output.accepting, p, r.egressOk, covers)
  }

  // ---------------------------------------------------------------- the description

  datatype Spec = Spec(
    sshPort: int, sshFrom: string, wgPort: int, overlayInput: bool, l2Input: bool, ingressPorts: seq<int>,
    egressAllow: seq<string>, dns: bool, noPublicSsh: bool, blockMetadata: bool, auditOnly: bool)

  const METADATA_IP := "169.254.169.254"
  const OVERLAY_SUBNET := "10.99.0.0/24"
  const VXLAN_PORT := 4789

  function SshPort(s: Spec): int { if s.sshPort == 0 then 22 else s.sshPort }

  /** What may come in, with no order among the reasons. */
  predicate MayEnter(s: Spec, p: Packet, covers: Nets) {
    || p.iface == "lo"
    || p.conn.Established? || p.conn.Related?
    || (p.saddr.V4? && p.proto.Icmp?)
    || (s.overlayInput && p.iface == "wg0")
    || (s.l2Input && p.iface == "vxlan0")
    || (s.wgPort != 0 && p.proto == Udp(s.wgPort))
    || (!s.noPublicSsh && p.proto == Tcp(SshPort(s)) && (s.sshFrom == "" || InNet(covers, s.sshFrom, p.saddr)))
    || (p.proto.Tcp? && p.proto.dport in s.ingressPorts)
  }

  /** The reasons to let a packet out that is not for the metadata service. */
  predicate HasReason(s: Spec, p: Packet, covers: Nets) {
    || p.conn.Established? || p.conn.Related?
    || (s.overlayInput && p.iface == "wg0")
    || (s.wgPort != 0 && p.proto == Udp(s.wgPort))
    || (s.l2Input && (p.iface == "vxlan0" || (InNet(covers, OVERLAY_SUBNET, p.daddr) && p.proto == Udp(VXLAN_PORT))))
    || (s.dns && (p.proto == Udp(53) || p.proto == Tcp(53)))
    || exists net <- s.egressAllow :: InNet(covers, net, p.daddr)
  }

  predicate ToMetadata(p: Packet, covers: Nets) { p.iface != "lo" && InNet(covers, METADATA_IP, p.daddr) }

  predicate MayLeave(s: Spec, p: Packet, covers: Nets) {
    p.iface == "lo" || (!(s.blockMetadata && ToMetadata(p, covers)) && HasReason(s, p, covers))
  }

  // ---------------------------------------------------------------- the chains

  function When(c: bool, rules: seq<Rule>): seq<Rule> { if c then rules else [] }

  function Allow(matches: seq<Match>): Rule { Rule(matches, Accept) }

  function PortRules(ports: seq<int>): seq<Rule> {
    seq(|ports|, i requires 0 <= i < |ports| => Allow([TcpTo(ports[i])]))
  }

  function SshRules(s: Spec): seq<Rule> {
    if s.noPublicSsh then []
    else if s.sshFrom != "" then [Allow([FromNet(s.sshFrom), TcpTo(SshPort(s))])]
    else [Allow([TcpTo(SshPort(s))])]
  }

  function InputRules(s: Spec): seq<Rule> {
    [Allow([Iface("lo")]), Allow([Returning]), Allow([IpIcmp])]
    + When(s.overlayInput, [Allow([Iface("wg0")])])
    + When(s.l2Input, [Allow([Iface("vxlan0")])])
    + When(s.wgPort != 0, [Allow([UdpTo(s.wgPort)])])
    + SshRules(s)
    + PortRules(s.ingressPorts)
  }

  function OutputRules(s: Spec): seq<Rule> {
    [Allow([Returning])]
    + When(s.overlayInput, [Allow([Iface("wg0")])])
    + When(s.wgPort != 0, [Allow([UdpTo(s.wgPort)])])
    + When(s.l2Input, [Allow([Iface("vxlan0")]), Allow([ToNet(OVERLAY_SUBNET), UdpTo(VXLAN_PORT)])])
    + When(s.dns, [Allow([UdpTo(53)]), Allow([TcpTo(53)])])
    + When(s.egressAllow != [], [Allow([ToEgressSet])])
  }

  /** The chains in full, and the set of allowed networks sorted. */
  ghost predicate IsCompiled(s: Spec, r: Ruleset) {
    && multiset(r.egressOk) == multiset(s.egressAllow) && Sorting.IsSorted(Sorting.StringLe, r.egressOk)
    && r.input == Chain(s.auditOnly, InputRules(s) + When(s.auditOnly, [Rule([], Log)]))
    && r.output == Chain(s.auditOnly,
      [Allow([Iface("lo")])] + When(s.blockMetadata && !s.auditOnly, [Rule([ToNet(METADATA_IP)], Drop)])
      + OutputRules(s) + When(s.auditOnly, [Rule([], Log)]))
  }

  /** A rule written only under a condition. */
  method WriteIf(b: seq<Rule>, c: bool, rules: seq<Rule>, ghost before: seq<Rule>,
      ghost own: seq<Rule>) returns (r: seq<Rule>)
    requires b == before + own
    ensures r == before + (own + When(c, rules)) == b + When(c, rules)
  {
    r := b;
    if c {
      r := r + rules;
    }
    assert before + (own + When(c, rules)) == before + own + When(c, rules);
  }

  method InputChain(s: Spec) returns (b: seq<Rule>)
    ensures b == InputRules(s) + When(s.auditOnly, [Rule([], Log)])
  {
    var sshPort := if s.sshPort == 0 then 22 else s.sshPort;
    b := [Allow([Iface("lo")]), Allow([Returning]), Allow([IpIcmp])];
    b := WriteIf(b, s.overlayInput, [Allow([Iface("wg0")])], [], b);
    b := WriteIf(b, s.l2Input, [Allow([Iface("vxlan0")])], [], b);
    b := WriteIf(b, s.wgPort != 0, [Allow([UdpTo(s.wgPort)])], [], b);
    ghost var before := b;
    if s.noPublicSsh {
    } else if s.sshFrom != "" {
      b := b + [Allow([FromNet(s.sshFrom), TcpTo(sshPort)])];
    } else {
      b := b + [Allow([TcpTo(sshPort)])];
    }
    assert b == before + SshRules(s);
    before := b;
    for i := 0 to |s.ingressPorts|
      invariant b == before + PortRules(s.ingressPorts[..i])
    {
      assert PortRules(s.ingressPorts[..i + 1]) == PortRules(s.ingressPorts[..i]) + [Allow([TcpTo(s.ingressPorts[i])])];
      b := b + [Allow([TcpTo(s.ingressPorts[i])])];
    }
    assert s.ingressPorts[..|s.ingressPorts|] == s.ingressPorts;
    b := WriteIf(b, s.auditOnly, [Rule([], Log)], [], b);
  }

  method OutputChain(s: Spec) returns (b: seq<Rule>)
    ensures b == [Allow([Iface("lo")])] + When(s.blockMetadata && !s.auditOnly, [Rule([ToNet(METADATA_IP)], Drop)])
      + OutputRules(s) + When(s.auditOnly, [Rule([], Log)])
  {
    b := [Allow([Iface("lo")])];
    b := WriteIf(b, s.blockMetadata && !s.auditOnly, [Rule([ToNet(METADATA_IP)], Drop)], [], b);
    ghost var before, own := b, [Allow([Returning])];
    b := b + [Allow([Returning])];
    b := WriteIf(b, s.overlayInput, [Allow([Iface("wg0")])], before, own);
    own := own + When(s.overlayInput, [Allow([Iface("wg0")])]);
    b := WriteIf(b, s.wgPort != 0, [Allow([UdpTo(s.wgPort)])], before, own);
    own := own + When(s.wgPort != 0, [Allow([UdpTo(s.wgPort)])]);
    var l2 := [Allow([Iface("vxlan0")]), Allow([ToNet(OVERLAY_SUBNET), UdpTo(VXLAN_PORT)])];
    b := WriteIf(b, s.l2Input, l2, before, own);
    own := own + When(s.l2Input, l2);
    b := WriteIf(b, s.dns, [Allow([UdpTo(53)]), Allow([TcpTo(53)])], before, own);
    own := own + When(s.dns, [Allow([UdpTo(53)]), Allow([TcpTo(53)])]);
    b := WriteIf(b, s.egressAllow != [], [Allow([ToEgressSet])], before, own);
    own := own + When(s.egressAllow != [], [Allow([ToEgressSet])]);
    b := WriteIf(b, s.auditOnly, [Rule([], Log)], [], b);
  }

  /** The rules written one after the other. */
  method NFTables(s: Spec) returns (r: Ruleset)
    ensures IsCompiled(s, r)
  {
    var ips: seq<string> := [];
    if |s.egressAllow| > 0 {
      Sorting.SortedStringsSorted(s.egressAllow);
      ips := Sorting.SortStrings(s.egressAllow);
    }
    var input := InputChain(s);
    var output := OutputChain(s);
    r := Ruleset(ips, Chain(s.auditOnly, input), Chain(s.auditOnly, output));
  }

  // ---------------------------------------------------------------- what they mean

  /** Some rule fires. */
  predicate AnyFires(rules: seq<Rule>, p: Packet, egressOk: seq<string>, covers: Nets) {
    exists r <- rules :: Fires(r, p, egressOk, covers)
  }

  lemma AnyFiresIn(a: seq<Rule>, b: seq<Rule>, p: Packet, egressOk: seq<string>, covers: Nets)
    ensures AnyFires(a + b, p, egressOk, covers) <==>
      AnyFires(a, p, egressOk, covers) || AnyFires(b, p, egressOk, covers)
  {
    assert forall r <- a + b :: r in a || r in b;
    assert forall r | r in a || r in b :: r in a + b;
  }

  predicate AllAccept(rules: seq<Rule>) { forall r <- rules :: r.verdict.Accept? }

  /** Rules that accept in front: they take what they match, and the rest is left as it was. */
  lemma {:induction false} RunAccepts(rules: seq<Rule>, later: seq<Rule>, accepting: bool, p: Packet,
      egressOk: seq<string>, covers: Nets)
    requires AllAccept(rules)
    ensures Run(rules + later, accepting, p, egressOk, covers) ==
      if AnyFires(rules, p, egressOk, covers) then Outcome(true, false) else Run(later, accepting, p, egressOk, covers)
  {
    if rules == [] {
      assert rules + later == later;
    } else {
      assert (rules + later)[1..] == rules[1..] + later;
      assert rules == [rules[0]] + rules[1..];
      AnyFiresIn([rules[0]], rules[1..], p, egressOk, covers);
      assert rules[0] in rules;
      RunAccepts(rules[1..], later, accepting, p, egressOk, covers);
    }
  }

  lemma FiresOne(m: Match, p: Packet, egressOk: seq<string>, covers: Nets)
    ensures AnyFires([Allow([m])], p, egressOk, covers) <==> Matches(m, p, egressOk, covers)
  {
    var r := Allow([m]);
    assert r.matches[0] == m && [r][0] == r;
    assert Fires(r, p, egressOk, covers) <==> Matches(r.matches[0], p, egressOk, covers);
  }

  lemma FiresTwo(m: Match, n: Match, p: Packet, egressOk: seq<string>, covers: Nets)
    ensures AnyFires([Allow([m, n])], p, egressOk, covers) <==>
      Matches(m, p, egressOk, covers) && Matches(n, p, egressOk, covers)
  {
    var r := Allow([m, n]);
    assert r.matches[0] == m && r.matches[1] == n && [r][0] == r;
    assert Fires(r, p, egressOk, covers) <==>
      Matches(r.matches[0], p, egressOk, covers) && Matches(r.matches[1], p, egressOk, covers);
  }

  lemma FiresEither(a: Rule, b: Rule, p: Packet, egressOk: seq<string>, covers: Nets)
    ensures AnyFires([a, b], p, egressOk, covers) <==>
      AnyFires([a], p, egressOk, covers) || AnyFires([b], p, egressOk, covers)
  {
    assert [a, b] == [a] + [b];
    AnyFiresIn([a], [b], p, egressOk, covers);
  }

  lemma FiresPort(ports: seq<int>, p: Packet, egressOk: seq<string>, covers: Nets)
    ensures AnyFires(PortRules(ports), p, egressOk, covers) <==> p.proto.Tcp? && p.proto.dport in ports
  {
    var rules := PortRules(ports);
    forall i | 0 <= i < |ports|
      ensures Fires(rules[i], p, egressOk, covers) <==> p.proto == Tcp(ports[i])
    {
      assert rules[i].matches[0] == TcpTo(ports[i]) && |rules[i].matches| == 1;
    }
    if p.proto.Tcp? && p.proto.dport in ports {
      var i :| 0 <= i < |ports| && ports[i] == p.proto.dport;
      assert rules[i] in rules;
    }
  }

  lemma FiresSsh(s: Spec, p: Packet, egressOk: seq<string>, covers: Nets)
    ensures AnyFires(SshRules(s), p, egressOk, covers) <==>
      !s.noPublicSsh && p.proto == Tcp(SshPort(s)) && (s.sshFrom == "" || InNet(covers, s.sshFrom, p.saddr))
  {
    if s.sshFrom != "" {
      FiresTwo(FromNet(s.sshFrom), TcpTo(SshPort(s)), p, egressOk, covers);
    } else {
      FiresOne(TcpTo(SshPort(s)), p, egressOk, covers);
    }
  }

  lemma FiresStart(p: Packet, egressOk: seq<string>, covers: Nets)
    ensures AnyFires([Allow([Iface("lo")]), Allow([Returning]), Allow([IpIcmp])], p, egressOk, covers) <==>
      p.iface == "lo" || p.conn.Established? || p.conn.Related? || (p.saddr.V4? && p.proto.Icmp?)
  {
    var a, b, c := Allow([Iface("lo")]), Allow([Returning]), Allow([IpIcmp]);
    assert [a, b, c] == [a] + [b, c];
    AnyFiresIn([a], [b, c], p, egressOk, covers);
    FiresEither(b, c, p, egressOk, covers);
    FiresOne(Iface("lo"), p, egressOk, covers);
    FiresOne(Returning, p, egressOk, covers);
    FiresOne(IpIcmp, p, egressOk, covers);
  }

  /** The conditional rules shared by both chains. */
  lemma FiresWhen(before: seq<Rule>, c: bool, m: Match, p: Packet, egressOk: seq<string>, covers: Nets)
    ensures AnyFires(before + When(c, [Allow([m])]), p, egressOk, covers) <==>
      AnyFires(before, p, egressOk, covers) || (c && Matches(m, p, egressOk, covers))
  {
    AnyFiresIn(before, When(c, [Allow([m])]), p, egressOk, covers);
    FiresOne(m, p, egressOk, covers);
  }

  lemma InputFires(s: Spec, p: Packet, egressOk: seq<string>, covers: Nets)
    ensures AnyFires(InputRules(s), p, egressOk, covers) <==> MayEnter(s, p, covers)
  {
    var a := [Allow([Iface("lo")]), Allow([Returning]), Allow([IpIcmp])];
    FiresStart(p, egressOk, covers);
    FiresWhen(a, s.overlayInput, Iface("wg0"), p, egressOk, covers);
    var b := a + When(s.overlayInput, [Allow([Iface("wg0")])]);
    FiresWhen(b, s.l2Input, Iface("vxlan0"), p, egressOk, covers);
    var c := b + When(s.l2Input, [Allow([Iface("vxlan0")])]);
    FiresWhen(c, s.wgPort != 0, UdpTo(s.wgPort), p, egressOk, covers);
    var d := c + When(s.wgPort != 0, [Allow([UdpTo(s.wgPort)])]);
    AnyFiresIn(d, SshRules(s), p, egressOk, covers);
    FiresSsh(s, p, egressOk, covers);
    AnyFiresIn(d + SshRules(s), PortRules(s.ingressPorts), p, egressOk, covers);
    FiresPort(s.ingressPorts, p, egressOk, covers);
  }

  lemma FiresL2(before: seq<Rule>, c: bool, p: Packet, egressOk: seq<string>, covers: Nets)
    ensures AnyFires(before + When(c, [Allow([Iface("vxlan0")]), Allow([ToNet(OVERLAY_SUBNET), UdpTo(VXLAN_PORT)])]), p,
      egressOk, covers) <==>
      AnyFires(before, p, egressOk, covers)
      || (c && (p.iface == "vxlan0" || (InNet(covers, OVERLAY_SUBNET, p.daddr) && p.proto == Udp(VXLAN_PORT))))
  {
    var a, b := Allow([Iface("vxlan0")]), Allow([ToNet(OVERLAY_SUBNET), UdpTo(VXLAN_PORT)]);
    AnyFiresIn(before, When(c, [a, b]), p, egressOk, covers);
    FiresEither(a, b, p, egressOk, covers);
    FiresOne(Iface("vxlan0"), p, egressOk, covers);
    FiresTwo(ToNet(OVERLAY_SUBNET), UdpTo(VXLAN_PORT), p, egressOk, covers);
  }

  lemma FiresDns(before: seq<Rule>, c: bool, p: Packet, egressOk: seq<string>, covers: Nets)
    ensures AnyFires(before + When(c, [Allow([UdpTo(53)]), Allow([TcpTo(53)])]), p, egressOk, covers) <==>
      AnyFires(before, p, egressOk, covers) || (c && (p.proto == Udp(53) || p.proto == Tcp(53)))
  {
    AnyFiresIn(before, When(c, [Allow([UdpTo(53)]), Allow([TcpTo(53)])]), p, egressOk, covers);
    FiresEither(Allow([UdpTo(53)]), Allow([TcpTo(53)]), p, egressOk, covers);
    FiresOne(UdpTo(53), p, egressOk, covers);
    FiresOne(TcpTo(53), p, egressOk, covers);
  }

  lemma OutputFires(s: Spec, p: Packet, egressOk: seq<string>, covers: Nets)
    requires multiset(egressOk) == multiset(s.egressAllow)
    ensures AnyFires(OutputRules(s), p, egressOk, covers) <==> HasReason(s, p, covers)
  {
    var a := [Allow([Returning])];
    FiresOne(Returning, p, egressOk, covers);
    FiresWhen(a, s.overlayInput, Iface("wg0"), p, egressOk, covers);
    var b := a + When(s.overlayInput, [Allow([Iface("wg0")])]);
    FiresWhen(b, s.wgPort != 0, UdpTo(s.wgPort), p, egressOk, covers);
    var c := b + When(s.wgPort != 0, [Allow([UdpTo(s.wgPort)])]);
    FiresL2(c, s.l2Input, p, egressOk, covers);
    var d := c + When(s.l2Input, [Allow([Iface("vxlan0")]), Allow([ToNet(OVERLAY_SUBNET), UdpTo(VXLAN_PORT)])]);
    FiresDns(d, s.dns, p, egressOk, covers);
    var e := d + When(s.dns, [Allow([UdpTo(53)]), Allow([TcpTo(53)])]);
    FiresWhen(e, s.egressAllow != [], ToEgressSet, p, egressOk, covers);
    SameElements(egressOk, s.egressAllow);
  }

  lemma SameElements(a: seq<string>, b: seq<string>)
    requires multiset(a) == multiset(b)
    ensures forall x :: x in a <==> x in b
  {
    forall x
      ensures x in a <==> x in b
    {
      assert x in a <==> x in multiset(a);
      assert x in b <==> x in multiset(b);
    }
  }

  lemma RunLast(audit: bool, p: Packet, egressOk: seq<string>, covers: Nets)
    ensures Run(When(audit, [Rule([], Log)]), audit, p, egressOk, covers) == Outcome(audit, audit)
  {
    if audit {
      var rules := [Rule([], Log)];
      assert rules[1..] == [];
    }
  }

  // ---------------------------------------------------------------- main results

  /** Enforced, a packet comes in exactly for one of the declared reasons; in audit all do, the others logged. */
  lemma InputMeaning(s: Spec, r: Ruleset, p: Packet, covers: Nets)
    requires IsCompiled(s, r)
    ensures Incoming(r, p, covers) ==
      Outcome(s.auditOnly || MayEnter(s, p, covers), s.auditOnly && !MayEnter(s, p, covers))
  {
    RunAccepts(InputRules(s), When(s.auditOnly, [Rule([], Log)]), s.auditOnly, p, r.egressOk, covers);
    InputFires(s, p, r.egressOk, covers);
    RunLast(s.auditOnly, p, r.egressOk, covers);
  }

  lemma RunBlock(block: bool, later: seq<Rule>, accepting: bool, p: Packet, egressOk: seq<string>, covers: Nets)
    ensures Run([Allow([Iface("lo")])] + When(block, [Rule([ToNet(METADATA_IP)], Drop)]) + later, accepting, p,
      egressOk, covers) ==
      if p.iface == "lo" then Outcome(true, false)
      else if block && ToMetadata(p, covers) then Outcome(false, false)
      else Run(later, accepting, p, egressOk, covers)
  {
    var lo, drop := [Allow([Iface("lo")])], Rule([ToNet(METADATA_IP)], Drop);
    assert lo + When(block, [drop]) + later == lo + (When(block, [drop]) + later);
    FiresOne(Iface("lo"), p, egressOk, covers);
    RunAccepts(lo, When(block, [drop]) + later, accepting, p, egressOk, covers);
    if block {
      assert ([drop] + later)[1..] == later && drop.matches[0] == ToNet(METADATA_IP);
      assert Fires(drop, p, egressOk, covers) <==> Matches(drop.matches[0], p, egressOk, covers);
    } else {
      assert When(block, [drop]) + later == later;
    }
  }

  /** The chain for outgoing packets, whatever its accepting rules are. */
  lemma OutputRuns(rules: seq<Rule>, block: bool, audit: bool, p: Packet, egressOk: seq<string>, covers: Nets)
    requires AllAccept(rules)
    ensures Run([Allow([Iface("lo")])] + When(block, [Rule([ToNet(METADATA_IP)], Drop)]) + rules
      + When(audit, [Rule([], Log)]), audit, p, egressOk, covers) ==
      if p.iface == "lo" then Outcome(true, false)
      else if block && ToMetadata(p, covers) then Outcome(false, false)
      else if AnyFires(rules, p, egressOk, covers) then Outcome(true, false)
      else Outcome(audit, audit)
  {
    var start, last := [Allow([Iface("lo")])] + When(block, [Rule([ToNet(METADATA_IP)], Drop)]),
      When(audit, [Rule([], Log)]);
    assert start + rules + last == start + (rules + last);
    RunBlock(block, rules + last, audit, p, egressOk, covers);
    RunAccepts(rules, last, audit, p, egressOk, covers);
    RunLast(audit, p, egressOk, covers);
  }

  lemma AcceptBoth(a: seq<Rule>, c: bool, b: seq<Rule>)
    requires AllAccept(a) && AllAccept(b)
    ensures AllAccept(a + When(c, b))
  {
  }

  lemma OutputAccepts(s: Spec)
    ensures AllAccept(OutputRules(s))
  {
    var wg, dns := [Allow([UdpTo(s.wgPort)])], [Allow([UdpTo(53)]), Allow([TcpTo(53)])];
    var l2 := [Allow([Iface("vxlan0")]), Allow([ToNet(OVERLAY_SUBNET), UdpTo(VXLAN_PORT)])];
    var a := [Allow([Returning])];
    var b := a + When(s.overlayInput, [Allow([Iface("wg0")])]);
    AcceptBoth(a, s.overlayInput, [Allow([Iface("wg0")])]);
    AcceptBoth(b, s.wgPort != 0, wg);
    AcceptBoth(b + When(s.wgPort != 0, wg), s.l2Input, l2);
    AcceptBoth(b + When(s.wgPort != 0, wg) + When(s.l2Input, l2), s.dns, dns);
    AcceptBoth(b + When(s.wgPort != 0, wg) + When(s.l2Input, l2) + When(s.dns, dns), s.egressAllow != [],
      [Allow([ToEgressSet])]);
  }

  /** Enforced, a packet leaves exactly when it may; in audit all do, and those without a reason are logged. */
  lemma OutputMeaning(s: Spec, r: Ruleset, p: Packet, covers: Nets)
    requires IsCompiled(s, r)
    ensures !s.auditOnly ==> Outgoing(r, p, covers) == Outcome(MayLeave(s, p, covers), false)
    ensures s.auditOnly ==> Outgoing(r, p, covers) == Outcome(true, p.iface != "lo" && !HasReason(s, p, covers))
  {
    OutputAccepts(s);
    OutputRuns(OutputRules(s), s.blockMetadata && !s.auditOnly, s.auditOnly, p, r.egressOk, covers);
    OutputFires(s, p, r.egressOk, covers);
  }

  /** With the block enforced nothing but loopback reaches the metadata service, whatever is allowed. */
  lemma MetadataUnreachable(s: Spec, r: Ruleset, p: Packet, covers: Nets)
    requires IsCompiled(s, r) && s.blockMetadata && !s.auditOnly && ToMetadata(p, covers)
    ensures !Outgoing(r, p, covers).accepted
  {
    OutputMeaning(s, r, p, covers);
  }

  /** The dry run of a lockdown logs a packet exactly when the lockdown drops it. */
  ghost predicate Observes(dry: Ruleset, lockdown: Ruleset, p: Packet, covers: Nets) {
    && Incoming(dry, p, covers) == Outcome(true, !Incoming(lockdown, p, covers).accepted)
    && Outgoing(dry, p, covers) == Outcome(true, !Outgoing(lockdown, p, covers).accepted)
  }

  lemma InputObserved(s: Spec, dry: Ruleset, lockdown: Ruleset, p: Packet, covers: Nets)
    requires IsCompiled(s.(auditOnly := true), dry) && IsCompiled(s.(auditOnly := false), lockdown)
    ensures Incoming(dry, p, covers) == Outcome(true, !Incoming(lockdown, p, covers).accepted)
  {
    InputMeaning(s.(auditOnly := true), dry, p, covers);
    InputMeaning(s.(auditOnly := false), lockdown, p, covers);
  }

  lemma OutputObserved(s: Spec, dry: Ruleset, lockdown: Ruleset, p: Packet, covers: Nets)
    requires IsCompiled(s.(auditOnly := true), dry) && IsCompiled(s.(auditOnly := false), lockdown)
    ensures Outgoing(dry, p, covers) == Outcome(true, p.iface != "lo" && !HasReason(s, p, covers))
    ensures Outgoing(lockdown, p, covers) == Outcome(MayLeave(s, p, covers), false)
  {
    OutputMeaning(s.(auditOnly := true), dry, p, covers);
    OutputMeaning(s.(auditOnly := false), lockdown, p, covers);
  }

  /**
    * The dry run misses exactly the packets to the metadata service that the block stops and some later rule
    * would allow: in the audit chain that rule accepts them before they come to the log.
    */
  lemma AuditMisses(s: Spec, dry: Ruleset, lockdown: Ruleset, p: Packet, covers: Nets)
    requires IsCompiled(s.(auditOnly := true), dry) && IsCompiled(s.(auditOnly := false), lockdown)
    ensures Observes(dry, lockdown, p, covers) <==>
      !(s.blockMetadata && ToMetadata(p, covers) && HasReason(s, p, covers))
  {
    InputObserved(s, dry, lockdown, p, covers);
    OutputObserved(s, dry, lockdown, p, covers);
  }

  /** So the log is the full picture exactly when metadata is not blocked: replies to it are never logged. */
  lemma AuditComplete(s: Spec, dry: Ruleset, lockdown: Ruleset, metadata: nat, covers: Nets)
    requires IsCompiled(s.(auditOnly := true), dry) && IsCompiled(s.(auditOnly := false), lockdown)
    requires covers(METADATA_IP, metadata)
    ensures (forall p :: Observes(dry, lockdown, p, covers)) <==> !s.blockMetadata
  {
    forall p
      ensures Observes(dry, lockdown, p, covers) <==>
        !(s.blockMetadata && ToMetadata(p, covers) && HasReason(s, p, covers))
    {
      AuditMisses(s, dry, lockdown, p, covers);
    }
    var reply := Packet("eth0", Established, V4(0), V4(metadata), Tcp(80));
    assert ToMetadata(reply, covers) && HasReason(s, reply, covers);
    assert Observes(dry, lockdown, reply, covers) <==> !s.blockMetadata;
  }

  lemma SameSets(s: seq<string>, t: seq<string>, a: seq<string>, b: seq<string>)
    requires multiset(a) == multiset(s) && multiset(b) == multiset(t) && multiset(s) == multiset(t)
    requires Sorting.IsSorted(Sorting.StringLe, a) && Sorting.IsSorted(Sorting.StringLe, b)
    ensures a == b && (s == [] <==> t == [])
  {
    Sorting.StringsOrdered(multiset(a));
    Sorting.SortedIsUnique(Sorting.StringLe, a, b);
    assert |multiset(s)| == |s| && |multiset(t)| == |t|;
  }

  lemma SameChains(s: Spec, allow: seq<string>)
    requires s.egressAllow == [] <==> allow == []
    ensures InputRules(s.(egressAllow := allow)) == InputRules(s)
    ensures OutputRules(s.(egressAllow := allow)) == OutputRules(s)
  {
  }

  /** The order in which allowed networks are given does not show. */
  lemma AllowOrderIsHidden(s: Spec, allow: seq<string>, r: Ruleset, q: Ruleset)
    requires multiset(allow) == multiset(s.egressAllow)
    requires IsCompiled(s, r) && IsCompiled(s.(egressAllow := allow), q)
    ensures r == q
  {
    SameSets(s.egressAllow, allow, r.egressOk, q.egressOk);
    SameChains(s, allow);
  }
}
