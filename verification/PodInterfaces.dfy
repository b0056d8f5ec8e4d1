/** The entries of a pod's interface and of its other side at the node's vswitch, networkservice_if.go. */
module PodInterfaces {
  import opened Unsigned
  import opened Addresses
  import opened Entries
  import opened Entities
  import opened Layers
  import opened Forwarding
  import opened Overlay
  import opened Layouts
  import opened Collecting

  datatype PodKind = MemifPod | VethPod | EthernetPod

  datatype FwdRoute = FwdRoute(vrf: u32, dst: string, nextHop: string)

  datatype FwdArp = FwdArp(ip: string, phys: string)

  /**
   * An interface of a connection at the node where its pod runs. What is resolved from elsewhere is given: whether its
   * status could be initialised, its addresses, and as text what sets memif, veth and af-packet interfaces apart.
   */
  datatype PodIf = PodIf(kind: PodKind, node: string, pod: string, name: string, vppPod: bool, ready: bool,
                         enabled: bool, mac: string, ips: seq<string>, mtu: u32, rxMode: string, vrf: u32,
                         podSide: string, switchSide: string, routes: seq<FwdRoute>, arps: seq<FwdArp>)
  {
    function Suffix(): string { pod + "_" + name }

    /** The name of the interface at the vswitch, which joins a bridge or a cross-connect. */
    function SwitchName(): string
    {
      match kind
      case MemifPod => "IF_MEMIF_VSWITCH_" + Suffix()
      case VethPod => "IF_AFPIF_VSWITCH_" + Suffix()
      case EthernetPod => name
    }

    /** The names of the two ends of a veth pair. */
    function PodVeth(): string { "IF_VETH_VNF_" + Suffix() }

    function SwitchVeth(): string { "IF_VETH_VSWITCH_" + Suffix() }

    function AsPort(): Port { Port(node, SwitchName()) }

    /** An interface of the pod's own VPP is rendered. */
    predicate HasPodSide() { kind.MemifPod? || (kind.VethPod? && vppPod) }
  }

  function VppEntry(agent: string, name: string, ifType: InterfaceType, i: PodIf, mac: string, ips: seq<string>,
                    vrf: u32, parameters: string): KV
  {
    KV(InterfaceKey(agent, name),
       InterfaceBody(Iface(name, ifType, i.enabled, mac, ips, i.mtu, i.rxMode, vrf, NoTunnel, parameters)))
  }

  function VethEntry(i: PodIf, name: string, mac: string, ips: seq<string>, peer: string, parameters: string): KV
  {
    KV(LinuxInterfaceKey(i.node, name),
       LinuxInterfaceBody(LinuxIface(name, i.enabled, mac, ips, i.mtu, peer, parameters)))
  }

  function FwdRouteEntry(i: PodIf, r: FwdRoute): KV
  {
    var hop := StripSlash(r.nextHop);
    KV(RouteKey(i.pod, r.vrf, r.dst, hop), RouteBody(Route(r.vrf, "FWD", r.dst, hop, 0, i.name, 0)))
  }

  function FwdArpEntry(i: PodIf, a: FwdArp): KV
  {
    KV(ArpKey(i.pod, i.name, a.phys), ArpBody(i.name, a.ip, a.phys))
  }

  /** The interface pair. */
  function PairEntries(i: PodIf): seq<KV>
  {
    match i.kind
    case MemifPod =>
      [VppEntry(i.pod, i.name, Memif, i, i.mac, i.ips, 0, i.podSide),
       VppEntry(i.node, i.SwitchName(), Memif, i, "", [], i.vrf, i.switchSide)]
    case VethPod =>
      [VethEntry(i, i.PodVeth(), i.mac, if i.vppPod then [] else i.ips, i.SwitchVeth(), i.podSide),
       VethEntry(i, i.SwitchVeth(), "", [], i.PodVeth(), i.switchSide)]
      + (if i.vppPod then [VppEntry(i.pod, i.name, AfPacket, i, i.mac, i.ips, i.vrf, i.podSide)] else [])
      + [VppEntry(i.node, i.SwitchName(), AfPacket, i, "", [], i.vrf, i.switchSide)]
    case EthernetPod => []
  }

  /** The first so many forwarding routes, and the first so many forwarding ARP entries. */
  function RouteEntries(i: PodIf, n: nat): seq<KV>
    requires n <= |i.routes|
  {
    if n == 0 then [] else RouteEntries(i, n - 1) + [FwdRouteEntry(i, i.routes[n - 1])]
  }

  function ArpEntries(i: PodIf, n: nat): seq<KV>
    requires n <= |i.arps|
  {
    if n == 0 then [] else ArpEntries(i, n - 1) + [FwdArpEntry(i, i.arps[n - 1])]
  }

  function PodEntries(i: PodIf): seq<KV>
  {
    if i.kind.EthernetPod? then [] else PairEntries(i) + RouteEntries(i, |i.routes|) + ArpEntries(i, |i.arps|)
  }

  /** The interface at the node's vswitch: without address, in the connection's VRF. */
  ghost predicate IsSwitchSide(i: PodIf, kv: KV)
  {
    var name := (if i.kind.MemifPod? then "IF_MEMIF_VSWITCH_" else "IF_AFPIF_VSWITCH_") + i.pod + "_" + i.name;
    && kv.key == InterfaceKey(i.node, name) && kv.body.InterfaceBody?
    && var f := kv.body.iface;
    && f.name == name && f.ifType == (if i.kind.MemifPod? then Memif else AfPacket) && f.enabled == i.enabled
    && f.physAddress == "" && f.ipAddresses == [] && f.mtu == i.mtu && f.rxMode == i.rxMode && f.vrf == i.vrf
    && f.tunnel == NoTunnel && f.parameters == i.switchSide
  }

  /** The interface in the pod's own VPP: with the pod's addresses; in the connection's VRF if it is no memif. */
  ghost predicate IsPodSide(i: PodIf, kv: KV)
  {
    && kv.key == InterfaceKey(i.pod, i.name) && kv.body.InterfaceBody?
    && var f := kv.body.iface;
    && f.name == i.name && f.ifType == (if i.kind.MemifPod? then Memif else AfPacket) && f.enabled == i.enabled
    && f.physAddress == i.mac && f.ipAddresses == i.ips && f.mtu == i.mtu && f.rxMode == i.rxMode
    && f.vrf == (if i.kind.MemifPod? then 0 else i.vrf) && f.tunnel == NoTunnel && f.parameters == i.podSide
  }

  /** The pod's end of a veth pair, which has the addresses unless the pod's VPP has them. */
  ghost predicate IsPodVeth(i: PodIf, kv: KV)
  {
    var name, peer := "IF_VETH_VNF_" + i.pod + "_" + i.name, "IF_VETH_VSWITCH_" + i.pod + "_" + i.name;
    && kv.key == LinuxInterfaceKey(i.node, name) && kv.body.LinuxInterfaceBody?
    && var f := kv.body.linux;
    && f.name == name && f.peer == peer && f.enabled == i.enabled && f.physAddress == i.mac && f.mtu == i.mtu
    && f.ipAddresses == (if i.vppPod then [] else i.ips) && f.parameters == i.podSide
  }

  /** The vswitch's end of a veth pair. */
  ghost predicate IsSwitchVeth(i: PodIf, kv: KV)
  {
    var name, peer := "IF_VETH_VSWITCH_" + i.pod + "_" + i.name, "IF_VETH_VNF_" + i.pod + "_" + i.name;
    && kv.key == LinuxInterfaceKey(i.node, name) && kv.body.LinuxInterfaceBody?
    && var f := kv.body.linux;
    && f.name == name && f.peer == peer && f.enabled == i.enabled && f.physAddress == "" && f.mtu == i.mtu
    && f.ipAddresses == [] && f.parameters == i.switchSide
  }

  /** A route in the pod's VPP out of the interface. */
  ghost predicate IsFwdRoute(i: PodIf, r: FwdRoute, kv: KV)
  {
    && r in i.routes && kv.key == RouteKey(i.pod, r.vrf, r.dst, StripSlash(r.nextHop)) && kv.body.RouteBody?
    && var f := kv.body.route;
    && f.vrf == r.vrf && f.dst == r.dst && f.nextHop == StripSlash(r.nextHop) && f.outgoing == i.name
    && f.weight == 0 && f.preference == 0 && f.description == "FWD"
  }

  /** A static ARP entry in the pod's VPP at the interface. */
  ghost predicate IsFwdArp(i: PodIf, a: FwdArp, kv: KV)
  {
    && a in i.arps && kv.key == ArpKey(i.pod, i.name, a.phys) && kv.body == ArpBody(i.name, a.ip, a.phys)
  }

  /** What a memif or veth interface of a pod is made of. */
  ghost predicate IsPodEntry(i: PodIf, kv: KV)
  {
    || IsSwitchSide(i, kv)
    || ((i.kind.MemifPod? || i.vppPod) && IsPodSide(i, kv))
    || (i.kind.VethPod? && (IsPodVeth(i, kv) || IsSwitchVeth(i, kv)))
    || (exists r :: IsFwdRoute(i, r, kv))
    || (exists a :: IsFwdArp(i, a, kv))
  }

  lemma PrefixedSuffix(i: PodIf, p: string)
    ensures p + i.Suffix() == p + i.pod + "_" + i.name
  {}

  lemma PairIs(i: PodIf, kv: KV)
    requires !i.kind.EthernetPod?
    ensures kv in PairEntries(i) <==>
              || IsSwitchSide(i, kv)
              || ((i.kind.MemifPod? || i.vppPod) && IsPodSide(i, kv))
              || (i.kind.VethPod? && (IsPodVeth(i, kv) || IsSwitchVeth(i, kv)))
  {
    PrefixedSuffix(i, "IF_MEMIF_VSWITCH_");
    PrefixedSuffix(i, "IF_AFPIF_VSWITCH_");
    PrefixedSuffix(i, "IF_VETH_VNF_");
    PrefixedSuffix(i, "IF_VETH_VSWITCH_");
  }

  lemma {:induction false} RouteEntriesAre(i: PodIf, n: nat, kv: KV)
    requires n <= |i.routes|
    ensures kv in RouteEntries(i, n) <==> exists k | 0 <= k < n :: IsFwdRoute(i, i.routes[k], kv)
  {
    if n > 0 { RouteEntriesAre(i, n - 1, kv); }
  }

  lemma {:induction false} ArpEntriesAre(i: PodIf, n: nat, kv: KV)
    requires n <= |i.arps|
    ensures kv in ArpEntries(i, n) <==> exists k | 0 <= k < n :: IsFwdArp(i, i.arps[k], kv)
  {
    if n > 0 { ArpEntriesAre(i, n - 1, kv); }
  }

  /** The entries of a pod interface: none of an Ethernet one, and of the others both sides and what is configured. */
  lemma PodEntriesAre(i: PodIf, kv: KV)
    ensures kv in PodEntries(i) <==> !i.kind.EthernetPod? && IsPodEntry(i, kv)
  {
    if !i.kind.EthernetPod? {
      PairIs(i, kv);
      RouteEntriesAre(i, |i.routes|, kv);
      ArpEntriesAre(i, |i.arps|, kv);
      if r :| IsFwdRoute(i, r, kv) { var k :| 0 <= k < |i.routes| && i.routes[k] == r; }
      if a :| IsFwdArp(i, a, kv) { var k :| 0 <= k < |i.arps| && i.arps[k] == a; }
    }
  }

  /** The interface can be rendered: the node has made an Ethernet one, the others need a status. */
  predicate CanRender(i: PodIf) { i.kind.EthernetPod? || i.ready }

  lemma {:induction false} RoutesArePlain(i: PodIf, n: nat)
    requires n <= |i.routes|
    ensures Plain(RouteEntries(i, n))
  {
    if n > 0 { RoutesArePlain(i, n - 1); }
  }

  lemma {:induction false} ArpsArePlain(i: PodIf, n: nat)
    requires n <= |i.arps|
    ensures Plain(ArpEntries(i, n))
  {
    if n > 0 { ArpsArePlain(i, n - 1); }
  }

  /** Names at the vswitch are not names of generated tunnels. */
  lemma SwitchNameIsNoTunnelName(i: PodIf)
    ensures !i.kind.EthernetPod? ==> !(TUNNEL_PREFIX <= i.SwitchName())
  {
    if !i.kind.EthernetPod? {
      assert i.SwitchName()[3] != 'V';
      assert TUNNEL_PREFIX[3] == 'V';
    }
  }

  /**
   * The entries of a pod interface interfere with no overlay exactly if the pod's own name for it is no tunnel's name.
   */
  lemma PodEntriesArePlain(i: PodIf)
    ensures Plain(PodEntries(i)) <==> !(i.HasPodSide() && TUNNEL_PREFIX <= i.name)
  {
    if !i.kind.EthernetPod? {
      PairIsPlain(i);
      RoutesArePlain(i, |i.routes|);
      ArpsArePlain(i, |i.arps|);
      PlainConcat(PairEntries(i), RouteEntries(i, |i.routes|));
      PlainConcat(PairEntries(i) + RouteEntries(i, |i.routes|), ArpEntries(i, |i.arps|));
    }
  }

  lemma PairIsPlain(i: PodIf)
    requires !i.kind.EthernetPod?
    ensures Plain(PairEntries(i)) <==> !(i.HasPodSide() && TUNNEL_PREFIX <= i.name)
  {
    SwitchNameIsNoTunnelName(i);
    var kvs := PairEntries(i);
    if i.kind.MemifPod? { assert kvs[0] in kvs; }
    if i.kind.VethPod? && i.vppPod { assert kvs[2] in kvs; }
  }

  lemma PlainConcat(x: seq<KV>, y: seq<KV>)
    ensures Plain(x + y) <==> Plain(x) && Plain(y)
  {
    assert forall kv :: kv in x + y <==> kv in x || kv in y;
  }

  /** Adds entries one by one. */
  function Adds(kvs: seq<KV>): seq<Step> { if kvs == [] then [] else Adds(kvs[..|kvs| - 1]) + [Add(kvs[|kvs| - 1])] }

  lemma {:induction false} AddsConcat(a: seq<KV>, b: seq<KV>)
    ensures Adds(a + b) == Adds(a) + Adds(b)
    decreases b
  {
    if b == [] {
      assert a + b == a;
    } else {
      assert (a + b)[..|a + b| - 1] == a + b[..|b| - 1];
      AddsConcat(a, b[..|b| - 1]);
    }
  }

  lemma {:induction false} AddsBlocks(kvs: seq<KV>)
    ensures forall s | s in Adds(kvs) :: s.Add?
    ensures forall x :: x in Blocks(Adds(kvs)) <==> exists kv :: kv in kvs && x == [kv]
    decreases kvs
  {
    if kvs != [] {
      var init, last := kvs[..|kvs| - 1], kvs[|kvs| - 1];
      AddsBlocks(init);
      BlocksConcat(Adds(init), [Add(last)]);
      assert [Add(last)][1..] == [];
      assert Blocks([Add(last)]) == [[last]];
      assert forall kv :: kv in kvs <==> kv in init || kv == last;
    }
  }

  lemma AddsOneMore(kvs: seq<KV>, kv: KV)
    ensures Adds(kvs + [kv]) == Adds(kvs) + [Add(kv)]
  {
    assert (kvs + [kv])[..|kvs|] == kvs;
  }

  method RenderForwardingRoutes(i: PodIf) returns (steps: seq<Step>)
    ensures steps == Adds(RouteEntries(i, |i.routes|))
  {
    steps := [];
    for j := 0 to |i.routes|
      invariant steps == Adds(RouteEntries(i, j))
    {
      AddsOneMore(RouteEntries(i, j), FwdRouteEntry(i, i.routes[j]));
      steps := steps + [Add(FwdRouteEntry(i, i.routes[j]))];
    }
  }

  method RenderForwardingArps(i: PodIf) returns (steps: seq<Step>)
    ensures steps == Adds(ArpEntries(i, |i.arps|))
  {
    steps := [];
    for j := 0 to |i.arps|
      invariant steps == Adds(ArpEntries(i, j))
    {
      AddsOneMore(ArpEntries(i, j), FwdArpEntry(i, i.arps[j]));
      steps := steps + [Add(FwdArpEntry(i, i.arps[j]))];
    }
  }

  /** The forwarding instructions of an interface: its routes and then its ARP entries. */
  method RenderInterfaceForwarding(i: PodIf) returns (steps: seq<Step>)
    ensures steps == Adds(RouteEntries(i, |i.routes|) + ArpEntries(i, |i.arps|))
  {
    steps := RenderForwardingRoutes(i);
    var arps := RenderForwardingArps(i);
    steps := steps + arps;
    AddsConcat(RouteEntries(i, |i.routes|), ArpEntries(i, |i.arps|));
  }

  lemma {:induction false} InAdds(kvs: seq<KV>, kv: KV)
    ensures Add(kv) in Adds(kvs) <==> kv in kvs
    decreases kvs
  {
    if kvs != [] { InAdds(kvs[..|kvs| - 1], kv); }
  }

  /** There is an interface at the vswitch, under the name that joins a bridge or a cross-connect. */
  lemma SwitchSideIs(i: PodIf)
    requires !i.kind.EthernetPod?
    ensures exists kv :: IsSwitchSide(i, kv) && kv.key == InterfaceKey(i.node, i.SwitchName())
  {
    var t := if i.kind.MemifPod? then Memif else AfPacket;
    PrefixedSuffix(i, "IF_MEMIF_VSWITCH_");
    PrefixedSuffix(i, "IF_AFPIF_VSWITCH_");
    assert IsSwitchSide(i, VppEntry(i.node, i.SwitchName(), t, i, "", [], i.vrf, i.switchSide));
  }

  /** Renders the pair of a pod interface: its own side, its side at the vswitch, and its forwarding instructions. */
  method RenderConnInterfacePair(i: PodIf) returns (ifName: string, steps: seq<Step>, ok: bool)
    ensures ok <==> CanRender(i)
    ensures ok ==> ifName == i.SwitchName() && steps == Adds(PodEntries(i))
    ensures ok ==> forall kv :: Add(kv) in steps <==> !i.kind.EthernetPod? && IsPodEntry(i, kv)
    ensures ok && !i.kind.EthernetPod? ==>
              exists kv :: Add(kv) in steps && IsSwitchSide(i, kv) && kv.key == InterfaceKey(i.node, ifName)
    ensures !ok ==> Messages(steps) != []
  {
    forall kv ensures Add(kv) in Adds(PodEntries(i)) <==> !i.kind.EthernetPod? && IsPodEntry(i, kv) {
      InAdds(PodEntries(i), kv);
      PodEntriesAre(i, kv);
    }
    if i.kind.EthernetPod? { return i.name, [], true; }
    if !i.ready { return "", [Fail("network pod interface")], false; }
    var pair := RenderPair(i);
    var forwarding := RenderInterfaceForwarding(i);
    AddsConcat(PairEntries(i), RouteEntries(i, |i.routes|) + ArpEntries(i, |i.arps|));
    assert PairEntries(i) + (RouteEntries(i, |i.routes|) + ArpEntries(i, |i.arps|)) == PodEntries(i);
    SwitchSideIs(i);
    return i.SwitchName(), pair + forwarding, true;
  }

  method RenderPair(i: PodIf) returns (steps: seq<Step>)
    requires !i.kind.EthernetPod?
    ensures steps == Adds(PairEntries(i))
  {
    var kvs: seq<KV>;
    if i.kind.MemifPod? {
      kvs := [VppEntry(i.pod, i.name, Memif, i, i.mac, i.ips, 0, i.podSide)];
      kvs := kvs + [VppEntry(i.node, "IF_MEMIF_VSWITCH_" + i.Suffix(), Memif, i, "", [], i.vrf, i.switchSide)];
    } else {
      var ips := i.ips;
      if i.vppPod { ips := []; }
      kvs := [VethEntry(i, i.PodVeth(), i.mac, ips, i.SwitchVeth(), i.podSide)];
      kvs := kvs + [VethEntry(i, i.SwitchVeth(), "", [], i.PodVeth(), i.switchSide)];
      if i.vppPod { kvs := kvs + [VppEntry(i.pod, i.name, AfPacket, i, i.mac, i.ips, i.vrf, i.podSide)]; }
      kvs := kvs + [VppEntry(i.node, "IF_AFPIF_VSWITCH_" + i.Suffix(), AfPacket, i, "", [], i.vrf, i.switchSide)];
    }
    assert kvs == PairEntries(i);
    steps := Adds(kvs);
  }
}
