// The address plan and the two full meshes over it: WireGuard peers, and the Ethernet segment on top.
module Mesh {
  import opened Prelude
  import opened Text

  // ---------------------------------------------------------------- addresses

  const OPERATOR_IP := "10.99.0.254"
  const FLOOD_MAC := "00:00:00:00:00:00"

  /** A network: its first address and how many there are, which is a power of two. */
  datatype Subnet = Subnet(first: nat, size: nat) {
    predicate Valid() { size > 0 && 0x1_0000_0000 % size == 0 && first < 0x1_0000_0000 && first % size == 0 }
  }

  /** The four octets of an address. */
  function Octets(a: nat): seq<nat> { [a / 0x100 / 0x100 / 0x100, a / 0x100 / 0x100 % 0x100, a / 0x100 % 0x100,
      a % 0x100] }

  function Dotted(a: nat): string {
    var o := Octets(a);
    Join([Digits(o[0]), Digits(o[1]), Digits(o[2]), Digits(o[3])], '.')
  }

  function L2Number(net: Subnet, host: nat): nat { (net.first + host) % 0x1_0000_0000 }

  function L2HostAddr(net: Subnet, host: nat): string { Dotted(L2Number(net, host)) }

  function OverlayIp(host: nat): string { "10.99.0." + Digits(host) }

  function HexDigit(d: nat): char
    requires d < 16
  {
    if d < 10 then ('0' as int + d) as char else ('a' as int + d - 10) as char
  }

  function Hex(n: nat): string { if n < 16 then [HexDigit(n)] else Hex(n / 16) + [HexDigit(n % 16)] }

  function Mac(host: nat): string { "02:00:00:00:00:" + if host < 16 then "0" + Hex(host) else Hex(host) }

  lemma SamePrefix(p: string, a: string, b: string)
    requires p + a == p + b
    ensures a == b
  {
    assert (p + a)[|p|..] == a && (p + b)[|p|..] == b;
  }

  lemma DigitsApart(a: nat, b: nat)
    ensures Digits(a) == Digits(b) <==> a == b
  {
    DecimalOfDigits(a);
    DecimalOfDigits(b);
  }

  lemma {:induction false} DigitsFree(n: nat, c: char)
    requires !IsDigit(c)
    ensures Free(Digits(n), c) && Digits(n) != ""
  {
    if n >= 10 {
      DigitsFree(n / 10, c);
    }
  }

  lemma OctetsApart(a: nat, b: nat)
    requires Octets(a) == Octets(b)
    ensures a == b
  {
    var (x, y) := (Octets(a), Octets(b));
    assert x[0] == y[0] && x[1] == y[1] && x[2] == y[2] && x[3] == y[3];
    assert a / 0x100 / 0x100 == b / 0x100 / 0x100;
    assert a / 0x100 == b / 0x100;
  }

  /** No two addresses are written alike. */
  lemma DottedApart(a: nat, b: nat)
    requires Dotted(a) == Dotted(b)
    ensures a == b
  {
    DottedParts(a);
    DottedParts(b);
    var (x, y) := (Octets(a), Octets(b));
    var (p, q) := (Split(Dotted(a), '.'), Split(Dotted(b), '.'));
    forall i | 0 <= i < 4
      ensures x[i] == y[i]
    {
      assert p[i] == Digits(x[i]) && q[i] == Digits(y[i]);
      DigitsApart(x[i], y[i]);
    }
    assert x == y;
    OctetsApart(a, b);
  }

  lemma DottedParts(a: nat)
    ensures var o := Octets(a); Split(Dotted(a), '.') == [Digits(o[0]), Digits(o[1]), Digits(o[2]), Digits(o[3])]
  {
    var o := Octets(a);
    DigitsFree(o[0], '.');
    DigitsFree(o[1], '.');
    DigitsFree(o[2], '.');
    DigitsFree(o[3], '.');
    SplitJoin([Digits(o[0]), Digits(o[1]), Digits(o[2]), Digits(o[3])], '.');
  }

  lemma MacShape(a: nat)
    requires a < 256
    ensures Mac(a) == "02:00:00:00:00:" + [HexDigit(a / 16), HexDigit(a % 16)]
  {
    if a < 16 {
      assert a / 16 == 0 && a % 16 == a && HexDigit(0) == '0';
      assert "0" + [HexDigit(a)] == [HexDigit(0), HexDigit(a)];
    } else {
      assert Hex(a / 16) == [HexDigit(a / 16)];
      assert [HexDigit(a / 16)] + [HexDigit(a % 16)] == [HexDigit(a / 16), HexDigit(a % 16)];
    }
  }

  lemma MacApart(a: nat, b: nat)
    requires a < 256 && b < 256 && a != b
    ensures Mac(a) != Mac(b)
  {
    MacShape(a);
    MacShape(b);
    if Mac(a) == Mac(b) {
      SamePrefix("02:00:00:00:00:", [HexDigit(a / 16), HexDigit(a % 16)], [HexDigit(b / 16), HexDigit(b % 16)]);
    }
  }

  lemma OverlayApart(a: nat, b: nat)
    requires a != b
    ensures OverlayIp(a) != OverlayIp(b)
  {
    DigitsApart(a, b);
    if OverlayIp(a) == OverlayIp(b) {
      SamePrefix("10.99.0.", Digits(a), Digits(b));
    }
  }

  lemma L2Apart(net: Subnet, a: nat, b: nat)
    requires a != b && a < 0x1_0000_0000 && b < 0x1_0000_0000
    ensures L2HostAddr(net, a) != L2HostAddr(net, b)
  {
    assert L2Number(net, a) != L2Number(net, b);
    if Dotted(L2Number(net, a)) == Dotted(L2Number(net, b)) {
      DottedApart(L2Number(net, a), L2Number(net, b));
    }
  }

  /** Different hosts have different addresses in both networks and different hardware addresses. */
  lemma HostsApart(net: Subnet, a: nat, b: nat)
    requires a < 256 && b < 256 && a != b
    ensures OverlayIp(a) != OverlayIp(b) && Mac(a) != Mac(b) && L2HostAddr(net, a) != L2HostAddr(net, b)
  {
    OverlayApart(a, b);
    MacApart(a, b);
    L2Apart(net, a, b);
  }

  /** The operator's address is nobody's exactly when there are fewer than 254 nodes. */
  lemma OperatorApart(n: nat)
    ensures (forall host | 1 <= host <= n :: OverlayIp(host) != OPERATOR_IP) <==> n <= 253
  {
    assert Digits(254) == "254" by {
      assert Digits(25) == "25" by {
        assert Digits(2) == "2";
      }
    }
    assert OverlayIp(254) == OPERATOR_IP;
    forall host | 1 <= host <= n && n <= 253
      ensures OverlayIp(host) != OPERATOR_IP
    {
      OverlayApart(host, 254);
    }
  }

  /** A host's address lies in the subnet exactly when its number is below the subnet's size. */
  lemma AddressFits(net: Subnet, host: nat)
    requires net.Valid() && host < 0x1_0000_0000
    ensures net.first <= L2Number(net, host) < net.first + net.size <==> host < net.size
  {
    EndsInRange(net.first, net.size);
  }

  lemma EndsInRange(first: nat, size: nat)
    requires size > 0 && 0x1_0000_0000 % size == 0 && first % size == 0 && first < 0x1_0000_0000
    ensures first + size <= 0x1_0000_0000
  {
    var k, m := first / size, 0x1_0000_0000 / size;
    assert first == size * k && 0x1_0000_0000 == size * m;
    if m <= k {
      Scale(m, k, size);
    } else {
      Scale(k + 1, m, size);
      assert size * (k + 1) == size * k + size;
    }
  }

  // ---------------------------------------------------------------- the plan

  datatype Node = Node(name: string, key: string, ip: string, overlayIp: string, l2Ip: string, l2Mac: string)

  function Planned(name: string, key: string, ip: string, net: Subnet, host: nat): Node {
    Node(name, key, ip, OverlayIp(host), L2HostAddr(net, host), Mac(host))
  }

  /** What the plan numbers from one up, with names, keys and public addresses given. */
  predicate IsPlan(plans: seq<Node>, net: Subnet) {
    forall i | 0 <= i < |plans| :: plans[i] == Planned(plans[i].name, plans[i].key, plans[i].ip, net, i + 1)
  }

  method PlanNodes(names: seq<string>, keys: seq<string>, ips: seq<string>, net: Subnet) returns (plans: array<Node>)
    requires |keys| == |names| && |ips| == |names|
    ensures fresh(plans) && plans.Length == |names| && IsPlan(plans[..], net)
    ensures forall i | 0 <= i < |names| :: plans[i].name == names[i] && plans[i].key == keys[i] && plans[i].ip == ips[i]
  {
    var blank := Node("", "", "", "", "", "");
    plans := new Node[|names|](_ => blank);
    for i := 0 to |names|
      invariant forall j | 0 <= j < i :: plans[j] == Planned(names[j], keys[j], ips[j], net, j + 1)
    {
      var host := i + 1;
      plans[i] := Node(names[i], keys[i], ips[i], OverlayIp(host), L2HostAddr(net, host), Mac(host));
    }
  }

  /** Names and keys tell nodes apart, and so do all planned addresses. */
  predicate AllApart(plans: seq<Node>) {
    forall i, j | 0 <= i < |plans| && 0 <= j < |plans| && i != j ::
      && plans[i].name != plans[j].name && plans[i].key != plans[j].key && plans[i].overlayIp != plans[j].overlayIp
      && plans[i].l2Ip != plans[j].l2Ip && plans[i].l2Mac != plans[j].l2Mac
  }

  lemma PlanApart(plans: seq<Node>, net: Subnet)
    requires IsPlan(plans, net) && |plans| <= 253
    requires forall i, j | 0 <= i < j < |plans| :: plans[i].name != plans[j].name && plans[i].key != plans[j].key
    ensures AllApart(plans)
    ensures forall i | 0 <= i < |plans| :: plans[i].overlayIp != OPERATOR_IP && plans[i].l2Mac != FLOOD_MAC
  {
    forall i, j | 0 <= i < |plans| && 0 <= j < |plans| && i != j
      ensures plans[i].overlayIp != plans[j].overlayIp
      ensures plans[i].l2Ip != plans[j].l2Ip && plans[i].l2Mac != plans[j].l2Mac
    {
      HostsApart(net, i + 1, j + 1);
    }
    OperatorApart(|plans|);
    forall i | 0 <= i < |plans|
      ensures plans[i].overlayIp != OPERATOR_IP && plans[i].l2Mac != FLOOD_MAC
    {
      assert plans[i].overlayIp == OverlayIp(i + 1);
      assert plans[i].l2Mac[1] == '2' && FLOOD_MAC[1] == '0';
    }
  }

  // ---------------------------------------------------------------- commands for a node

  datatype Command = SetPeer(key: string, endpoint: Option<string>, allowed: string) | AppendFdb(mac: string,
      dst: string)

  /** A peer for every other node. */
  function Peers(plans: seq<Node>, name: string): seq<Command> {
    if plans == [] then []
    else
      var q := plans[|plans| - 1];
      Peers(plans[..|plans| - 1], name) + if q.name == name then [] else [SetPeer(q.key, Some(q.ip), q.overlayIp)]
  }

  function FdbInject(mac: string, dst: string): seq<Command> { [AppendFdb(mac, dst), AppendFdb(FLOOD_MAC, dst)] }

  function Fdbs(plans: seq<Node>, name: string): seq<Command> {
    if plans == [] then []
    else
      var q := plans[|plans| - 1];
      Fdbs(plans[..|plans| - 1], name) + if q.name == name then [] else FdbInject(q.l2Mac, q.overlayIp)
  }

  /** For each node in turn the commands for it: peers for the others and the operator. */
  method FormMesh(plans: seq<Node>, operatorKey: string) returns (all: seq<seq<Command>>)
    ensures |all| == |plans|
    ensures forall i | 0 <= i < |plans| ::
      all[i] == Peers(plans, plans[i].name) + [SetPeer(operatorKey, None, OPERATOR_IP)]
  {
    all := [];
    for i := 0 to |plans|
      invariant |all| == i
      invariant forall k | 0 <= k < i ::
        all[k] == Peers(plans, plans[k].name) + [SetPeer(operatorKey, None, OPERATOR_IP)]
    {
      var p := plans[i];
      var cmds: seq<Command> := [];
      for j := 0 to |plans|
        invariant cmds == Peers(plans[..j], p.name)
      {
        assert plans[..j + 1][..j] == plans[..j];
        var q := plans[j];
        if q.name == p.name {
          continue;
        }
        cmds := cmds + [SetPeer(q.key, Some(q.ip), q.overlayIp)];
      }
      assert plans[..|plans|] == plans;
      cmds := cmds + [SetPeer(operatorKey, None, OPERATOR_IP)];
      all := all + [cmds];
    }
  }

  method InjectFdb(plans: seq<Node>) returns (all: seq<seq<Command>>)
    ensures |all| == |plans| && forall i | 0 <= i < |plans| :: all[i] == Fdbs(plans, plans[i].name)
  {
    all := [];
    for i := 0 to |plans|
      invariant |all| == i && forall k | 0 <= k < i :: all[k] == Fdbs(plans, plans[k].name)
    {
      var p := plans[i];
      var cmds: seq<Command> := [];
      for j := 0 to |plans|
        invariant cmds == Fdbs(plans[..j], p.name)
      {
        assert plans[..j + 1][..j] == plans[..j];
        var q := plans[j];
        if q.name == p.name {
          continue;
        }
        cmds := cmds + FdbInject(q.l2Mac, q.overlayIp);
      }
      assert plans[..|plans|] == plans;
      all := all + [cmds];
    }
  }

  // ---------------------------------------------------------------- what the commands set up

  /** Which peer an overlay address is routed to: a new one replaces the peer's, and is taken from any other. */
  function Routes(cmds: seq<Command>): map<string, string> {
    if cmds == [] then map[]
    else
      var before, c := Routes(cmds[..|cmds| - 1]), cmds[|cmds| - 1];
      if c.SetPeer? then (map ip | ip in before && before[ip] != c.key :: before[ip])[c.allowed := c.key] else before
  }

  lemma RoutesMore(cmds: seq<Command>, c: Command)
    requires c.SetPeer?
    ensures var r := Routes(cmds);
      Routes(cmds + [c]) == (map ip | ip in r && r[ip] != c.key :: r[ip])[c.allowed := c.key]
  {
    assert (cmds + [c])[..|cmds|] == cmds;
  }

  /** The node's overlay address leads to its key. */
  predicate RoutedTo(r: map<string, string>, q: Node) { q.overlayIp in r && r[q.overlayIp] == q.key }

  /** The address is that of another node among the first `n`. */
  predicate IsOthers(plans: seq<Node>, n: nat, name: string, ip: string)
    requires n <= |plans|
  {
    exists j | 0 <= j < n :: plans[j].name != name && plans[j].overlayIp == ip
  }

  /** The others among the first `n` are routed to, and nobody else. */
  ghost predicate OthersRouted(plans: seq<Node>, n: nat, name: string, r: map<string, string>)
    requires n <= |plans|
  {
    && (forall ip :: ip in r <==> IsOthers(plans, n, name, ip))
    && (forall j | 0 <= j < n && plans[j].name != name :: RoutedTo(r, plans[j]))
  }

  lemma {:induction false} PeersRouted(plans: seq<Node>, n: nat, name: string)
    requires n <= |plans| && AllApart(plans)
    ensures OthersRouted(plans, n, name, Routes(Peers(plans[..n], name)))
  {
    if n == 0 {
      assert plans[..0] == [];
    } else {
      var before, q := Peers(plans[..n - 1], name), plans[n - 1];
      PeersRouted(plans, n - 1, name);
      PeerAdded(plans, n - 1, name, before);
      assert Peers(plans[..n], name) ==
        before + (if q.name == name then [] else [SetPeer(q.key, Some(q.ip), q.overlayIp)]) by
      {
        assert plans[..n] == plans[..n - 1] + [q];
        PeersMore(plans[..n - 1], q, name);
      }
    }
  }

  lemma PeersMore(plans: seq<Node>, q: Node, name: string)
    ensures Peers(plans + [q], name) ==
      Peers(plans, name) + if q.name == name then [] else [SetPeer(q.key, Some(q.ip), q.overlayIp)]
  {
    assert (plans + [q])[..|plans|] == plans;
  }

  lemma PeerAdded(plans: seq<Node>, n: nat, name: string, cmds: seq<Command>)
    requires n < |plans| && AllApart(plans)
    ensures var q := plans[n];
      OthersRouted(plans, n, name, Routes(cmds)) ==>
        OthersRouted(plans, n + 1, name,
          Routes(cmds + if q.name == name then [] else [SetPeer(q.key, Some(q.ip), q.overlayIp)]))
  {
    if OthersRouted(plans, n, name, Routes(cmds)) {
      var q := plans[n];
      NewPeer(plans, n, name, Routes(cmds));
      if q.name == name {
        assert cmds + [] == cmds;
      } else {
        OneMoreRoute(cmds, SetPeer(q.key, Some(q.ip), q.overlayIp));
      }
    }
  }

  /** A key not seen before takes no route away. */
  lemma NewPeer(plans: seq<Node>, n: nat, name: string, r: map<string, string>)
    requires n < |plans| && AllApart(plans) && OthersRouted(plans, n, name, r)
    ensures forall ip | ip in r :: r[ip] != plans[n].key
  {
    forall ip | ip in r
      ensures r[ip] != plans[n].key
    {
      var j :| 0 <= j < n && plans[j].name != name && plans[j].overlayIp == ip;
    }
  }

  /** The others' addresses go to the others' keys, the operator's to the operator's, and nothing else anywhere. */
  ghost predicate IsFullMesh(r: map<string, string>, plans: seq<Node>, p: nat, operatorKey: string)
    requires p < |plans|
  {
    && (forall j | 0 <= j < |plans| && j != p :: RoutedTo(r, plans[j]))
    && OPERATOR_IP in r && r[OPERATOR_IP] == operatorKey
    && (forall ip | ip in r ::
      ip == OPERATOR_IP || (ip != plans[p].overlayIp && IsOthers(plans, |plans|, plans[p].name, ip)))
  }

  /** What the peer commands for a node and the operator's set up there. */
  lemma {:induction false} FullMesh(plans: seq<Node>, p: nat, operatorKey: string)
    requires AllApart(plans) && p < |plans|
    requires forall j | 0 <= j < |plans| :: plans[j].overlayIp != OPERATOR_IP && plans[j].key != operatorKey
    ensures IsFullMesh(Routes(Peers(plans, plans[p].name) + [SetPeer(operatorKey, None, OPERATOR_IP)]), plans, p,
      operatorKey)
  {
    assert plans[..|plans|] == plans;
    PeersRouted(plans, |plans|, plans[p].name);
    MeshFrom(Peers(plans, plans[p].name), plans, p, operatorKey);
  }

  lemma MeshFrom(cmds: seq<Command>, plans: seq<Node>, p: nat, operatorKey: string)
    requires AllApart(plans) && p < |plans|
    requires forall ip :: ip in Routes(cmds) <==> IsOthers(plans, |plans|, plans[p].name, ip)
    requires forall j | 0 <= j < |plans| && plans[j].name != plans[p].name :: RoutedTo(Routes(cmds), plans[j])
    requires forall j | 0 <= j < |plans| :: plans[j].overlayIp != OPERATOR_IP && plans[j].key != operatorKey
    ensures IsFullMesh(Routes(cmds + [SetPeer(operatorKey, None, OPERATOR_IP)]), plans, p, operatorKey)
  {
    OperatorJoins(Routes(cmds), plans, p, operatorKey);
    OneMoreRoute(cmds, SetPeer(operatorKey, None, OPERATOR_IP));
  }

  lemma OperatorJoins(r: map<string, string>, plans: seq<Node>, p: nat, operatorKey: string)
    requires AllApart(plans) && p < |plans| && forall ip :: ip in r <==> IsOthers(plans, |plans|, plans[p].name, ip)
    requires forall j | 0 <= j < |plans| && plans[j].name != plans[p].name :: RoutedTo(r, plans[j])
    requires forall j | 0 <= j < |plans| :: plans[j].overlayIp != OPERATOR_IP && plans[j].key != operatorKey
    ensures forall ip | ip in r :: r[ip] != operatorKey
    ensures IsFullMesh(r[OPERATOR_IP := operatorKey], plans, p, operatorKey)
  {
    forall ip | ip in r
      ensures r[ip] != operatorKey && ip != plans[p].overlayIp
    {
      NotOwn(plans, p, operatorKey, ip, r);
    }
  }

  lemma NotOwn(plans: seq<Node>, p: nat, operatorKey: string, ip: string, r: map<string, string>)
    requires AllApart(plans) && p < |plans| && ip in r && IsOthers(plans, |plans|, plans[p].name, ip)
    requires forall j | 0 <= j < |plans| :: plans[j].key != operatorKey
    requires forall j | 0 <= j < |plans| && plans[j].name != plans[p].name :: RoutedTo(r, plans[j])
    ensures r[ip] != operatorKey && ip != plans[p].overlayIp
  {
    var j :| 0 <= j < |plans| && plans[j].name != plans[p].name && plans[j].overlayIp == ip;
  }

  lemma OneMoreRoute(cmds: seq<Command>, c: Command)
    requires c.SetPeer? && forall ip | ip in Routes(cmds) :: Routes(cmds)[ip] != c.key
    ensures Routes(cmds + [c]) == Routes(cmds)[c.allowed := c.key]
  {
    RoutesMore(cmds, c);
  }

  /** Where frames for an address are sent, in order. */
  function Dsts(cmds: seq<Command>, mac: string): seq<string> {
    if cmds == [] then []
    else
      var c := cmds[|cmds| - 1];
      Dsts(cmds[..|cmds| - 1], mac) + if c.AppendFdb? && c.mac == mac then [c.dst] else []
  }

  lemma {:induction false} DstsBoth(a: seq<Command>, b: seq<Command>, mac: string)
    ensures Dsts(a + b, mac) == Dsts(a, mac) + Dsts(b, mac)
  {
    if b == [] {
      assert a + b == a;
    } else {
      assert (a + b)[..|a + b| - 1] == a + b[..|b| - 1];
      DstsBoth(a, b[..|b| - 1], mac);
    }
  }

  lemma DstsInject(mac: string, dst: string, m: string)
    requires mac != FLOOD_MAC
    ensures Dsts(FdbInject(mac, dst), m) == if m == mac || m == FLOOD_MAC then [dst] else []
  {
    var cmds := FdbInject(mac, dst);
    assert cmds[..1][..0] == [];
    assert Dsts(cmds[..1], m) == if m == mac then [dst] else [];
  }

  /** The tunnel ends of the other nodes, in order. */
  function OtherEnds(plans: seq<Node>, name: string): seq<string> {
    if plans == [] then []
    else
      var q := plans[|plans| - 1];
      OtherEnds(plans[..|plans| - 1], name) + if q.name == name then [] else [q.overlayIp]
  }

  /** Frames for everyone go to the other nodes' ends. */
  lemma {:induction false} FloodSends(plans: seq<Node>, name: string)
    requires NoFloodMac(plans)
    ensures Dsts(Fdbs(plans, name), FLOOD_MAC) == OtherEnds(plans, name)
  {
    if plans != [] {
      var n := |plans| - 1;
      FloodSends(plans[..n], name);
      var inject := FdbInject(plans[n].l2Mac, plans[n].overlayIp);
      DstsBoth(Fdbs(plans[..n], name), if plans[n].name == name then [] else inject, FLOOD_MAC);
      DstsInject(plans[n].l2Mac, plans[n].overlayIp, FLOOD_MAC);
    }
  }

  predicate NoMac(plans: seq<Node>, mac: string) { forall i | 0 <= i < |plans| :: plans[i].l2Mac != mac }

  predicate NoFloodMac(plans: seq<Node>) { NoMac(plans, FLOOD_MAC) }

  lemma {:induction false} FdbsBoth(a: seq<Node>, b: seq<Node>, name: string)
    ensures Fdbs(a + b, name) == Fdbs(a, name) + Fdbs(b, name)
  {
    if b == [] {
      assert a + b == a;
    } else {
      assert (a + b)[..|a + b| - 1] == a + b[..|b| - 1];
      FdbsBoth(a, b[..|b| - 1], name);
    }
  }

  /** Frames for an address that is no other node's are sent nowhere. */
  lemma {:induction false} UnicastNowhere(plans: seq<Node>, name: string, mac: string)
    requires NoFloodMac(plans) && mac != FLOOD_MAC
    requires forall i | 0 <= i < |plans| :: plans[i].l2Mac == mac ==> plans[i].name == name
    ensures Dsts(Fdbs(plans, name), mac) == []
  {
    if plans != [] {
      var q := plans[|plans| - 1];
      UnicastNowhere(plans[..|plans| - 1], name, mac);
      DstsBoth(Fdbs(plans[..|plans| - 1], name), if q.name == name then [] else FdbInject(q.l2Mac, q.overlayIp), mac);
      DstsInject(q.l2Mac, q.overlayIp, mac);
    }
  }

  /** Frames for another node are sent to its end. */
  lemma UnicastThere(before: seq<Node>, q: Node, after: seq<Node>, name: string)
    requires NoFloodMac(before) && NoFloodMac(after) && q.l2Mac != FLOOD_MAC && q.name != name
    requires NoMac(before, q.l2Mac) && NoMac(after, q.l2Mac)
    ensures Dsts(Fdbs(before + [q] + after, name), q.l2Mac) == [q.overlayIp]
  {
    UnicastNowhere(before, name, q.l2Mac);
    UnicastNowhere(after, name, q.l2Mac);
    FdbsBoth(before + [q], after, name);
    FdbsBoth(before, [q], name);
    assert Fdbs([q], name) == FdbInject(q.l2Mac, q.overlayIp) by {
      assert [q][..0] == [];
    }
    DstsInject(q.l2Mac, q.overlayIp, q.l2Mac);
    DstsBoth(Fdbs(before, name) + FdbInject(q.l2Mac, q.overlayIp), Fdbs(after, name), q.l2Mac);
    DstsBoth(Fdbs(before, name), FdbInject(q.l2Mac, q.overlayIp), q.l2Mac);
  }

  /** How often an end other than the sender's is sent to. */
  lemma {:induction false} EndsOnce(plans: seq<Node>, n: nat, name: string, k: nat)
    requires n <= |plans| && k < |plans|
    requires forall i | 0 <= i < |plans| && i != k :: plans[i].overlayIp != plans[k].overlayIp
    ensures multiset(OtherEnds(plans[..n], name))[plans[k].overlayIp] == if k < n && plans[k].name != name then 1 else 0
  {
    if n == 0 {
      assert plans[..0] == [];
    } else {
      assert plans[..n] == plans[..n - 1] + [plans[n - 1]];
      EndsOnce(plans, n - 1, name, k);
      EndAdded(plans[..n - 1], plans[n - 1], name, plans[k].overlayIp);
    }
  }

  lemma EndAdded(plans: seq<Node>, q: Node, name: string, ip: string)
    ensures multiset(OtherEnds(plans + [q], name))[ip] ==
      multiset(OtherEnds(plans, name))[ip] + if q.name != name && q.overlayIp == ip then 1 else 0
  {
    var ends := OtherEnds(plans, name);
    assert (plans + [q])[..|plans|] == plans;
    assert OtherEnds(plans + [q], name) == ends + if q.name == name then [] else [q.overlayIp];
    if q.name == name {
      assert ends + [] == ends;
    }
  }

  lemma UnicastOnce(plans: seq<Node>, p: nat, k: nat)
    requires p < |plans| && k < |plans| && NoFloodMac(plans) && (k != p ==> plans[k].name != plans[p].name)
    requires forall i | 0 <= i < |plans| && i != k :: plans[i].l2Mac != plans[k].l2Mac
    ensures Dsts(Fdbs(plans, plans[p].name), plans[k].l2Mac) == if k == p then [] else [plans[k].overlayIp]
  {
    if k == p {
      UnicastNowhere(plans, plans[p].name, plans[p].l2Mac);
    } else {
      SidesApart(plans, k);
      UnicastThere(plans[..k], plans[k], plans[k + 1..], plans[p].name);
    }
  }

  lemma SidesApart(plans: seq<Node>, k: nat)
    requires k < |plans| && NoFloodMac(plans)
    requires forall i | 0 <= i < |plans| && i != k :: plans[i].l2Mac != plans[k].l2Mac
    ensures plans == plans[..k] + [plans[k]] + plans[k + 1..] && NoFloodMac(plans[..k]) && NoFloodMac(plans[k + 1..])
    ensures NoMac(plans[..k], plans[k].l2Mac) && NoMac(plans[k + 1..], plans[k].l2Mac)
  {
    var after := plans[k + 1..];
    assert forall i | 0 <= i < |after| :: after[i] == plans[k + 1 + i];
  }

  /** A broadcast reaches every other node once and never its sender; a frame for a node reaches that node only. */
  lemma {:induction false} BroadcastOnce(plans: seq<Node>, p: nat, k: nat)
    requires AllApart(plans) && p < |plans| && k < |plans| && NoFloodMac(plans)
    ensures var cmds := Fdbs(plans, plans[p].name);
      && multiset(Dsts(cmds, FLOOD_MAC))[plans[k].overlayIp] == (if k == p then 0 else 1)
      && Dsts(cmds, plans[k].l2Mac) == (if k == p then [] else [plans[k].overlayIp])
  {
    assert plans[..|plans|] == plans;
    FloodSends(plans, plans[p].name);
    EndsOnce(plans, |plans|, plans[p].name, k);
    UnicastOnce(plans, p, k);
  }

  // ---------------------------------------------------------------- ARP inspection

  datatype ArpOp = Request | Reply | OtherOp

  datatype Arp = Arp(iface: string, op: ArpOp, senderIp: string, senderMac: string)

  datatype Binding = Binding(l2Ip: string, mac: string)

  /** Rules on the overlay segment, first match deciding; anything no rule matches is accepted. */
  datatype ArpRule = AcceptSender(ip: string, mac: string) | DropOp(op: ArpOp)

  function DaiRules(bindings: seq<Binding>): seq<ArpRule> {
    seq(|bindings|, i requires 0 <= i < |bindings| => AcceptSender(bindings[i].l2Ip, bindings[i].mac))
      + [DropOp(Reply), DropOp(Request)]
  }

  method WriteDaiRules(bindings: seq<Binding>) returns (rules: seq<ArpRule>)
    ensures rules == DaiRules(bindings)
  {
    rules := [];
    for i := 0 to |bindings|
      invariant rules == seq(i, k requires 0 <= k < i => AcceptSender(bindings[k].l2Ip, bindings[k].mac))
    {
      rules := rules + [AcceptSender(bindings[i].l2Ip, bindings[i].mac)];
    }
    rules := rules + [DropOp(Reply)];
    rules := rules + [DropOp(Request)];
  }

  predicate RuleHits(r: ArpRule, a: Arp) {
    a.iface == "vxlan0" && if r.AcceptSender? then a.senderIp == r.ip && a.senderMac == r.mac else a.op == r.op
  }

  predicate Admits(rules: seq<ArpRule>, a: Arp) {
    rules == [] || if RuleHits(rules[0], a) then rules[0].AcceptSender? else Admits(rules[1..], a)
  }

  lemma {:induction false} AdmitsSender(bindings: seq<Binding>, a: Arp)
    ensures Admits(DaiRules(bindings), a) <==>
      a.iface != "vxlan0" || Binding(a.senderIp, a.senderMac) in bindings || a.op.OtherOp?
  {
    var rules := DaiRules(bindings);
    if bindings == [] {
      assert rules == [DropOp(Reply), DropOp(Request)];
      assert rules[1..] == [DropOp(Request)] && rules[1..][1..] == [];
      assert Admits(rules[1..], a) <==> !RuleHits(DropOp(Request), a);
    } else {
      AdmitsSender(bindings[1..], a);
      assert rules[1..] == DaiRules(bindings[1..]);
      assert bindings == [bindings[0]] + bindings[1..];
    }
  }

  /** Only known senders get ARP through on the segment, but for messages that neither ask nor answer. */
  lemma InspectionIsStrict(bindings: seq<Binding>, a: Arp)
    requires a.iface == "vxlan0"
    ensures (Admits(DaiRules(bindings), a) <==> Binding(a.senderIp, a.senderMac) in bindings) <==>
      (!a.op.OtherOp? || Binding(a.senderIp, a.senderMac) in bindings)
  {
    AdmitsSender(bindings, a);
  }

  function Bindings(plans: seq<Node>): seq<Binding> {
    seq(|plans|, i requires 0 <= i < |plans| => Binding(plans[i].l2Ip, plans[i].l2Mac))
  }

  /** A node's address is believed only from its own hardware address. */
  lemma NobodySpeaksForAnother(plans: seq<Node>, i: nat, a: Arp)
    requires AllApart(plans) && i < |plans| && a.iface == "vxlan0" && !a.op.OtherOp? && a.senderIp == plans[i].l2Ip
    ensures Admits(DaiRules(Bindings(plans)), a) <==> a.senderMac == plans[i].l2Mac
  {
    AdmitsSender(Bindings(plans), a);
    var known := Bindings(plans);
    assert known[i] == Binding(plans[i].l2Ip, plans[i].l2Mac);
    if Binding(a.senderIp, a.senderMac) in known {
      var j :| 0 <= j < |known| && known[j] == Binding(a.senderIp, a.senderMac);
      assert known[j] == Binding(plans[j].l2Ip, plans[j].l2Mac);
    }
  }
}
