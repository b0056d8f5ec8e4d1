/** What the VXLAN overlays are rendered from and to: generated names, tunnels, loopbacks, routes and bridges. */
module Overlay {
  import opened Text
  import opened Unsigned
  import opened Addresses
  import opened Entries

  /** A connection of a service, counted from 1, with the VNI of its tunnels. */
  datatype Conn = Conn(service: string, index: nat, vni: u32)

  /** The prefix of the names of generated tunnels and loopbacks. */
  const TUNNEL_PREFIX := "IF_VXLAN_"

  function Label(c: Conn): string { c.service + "_CONN_" + Decimal(c.index) }

  function MeshName(c: Conn, from: string, to: string): string
  {
    TUNNEL_PREFIX + "MESH_NET_SRVC_" + Label(c) + "_FROM_" + from + "_TO_" + to + ("_VNI_" + Decimal(c.vni))
  }

  function HubName(c: Conn, hub: string, spoke: string): string
  {
    TUNNEL_PREFIX + "NET_SRVC_" + Label(c) + "_FROM_HUB_" + hub + "_TO_SPOKE_" + spoke + ("_VNI_" + Decimal(c.vni))
  }

  function SpokeName(c: Conn, spoke: string, hub: string): string
  {
    TUNNEL_PREFIX + "NET_SRVC_" + Label(c) + "_FROM_SPOKE_" + spoke + "_TO_HUB_" + hub + ("_VNI_" + Decimal(c.vni))
  }

  function LoopbackName(node: string): string { TUNNEL_PREFIX + "LOOPBACK_" + node }

  function BridgeName(c: Conn): string { "BD_" + Label(c) }

  /** How an overlay reaches its endpoints, with the system parameters of what it creates for that. */
  datatype Options = Options(createLoopback: bool, createRoutes: bool, ifLabel: string,
                             mtu: u32, rxMode: string, weight: u32, preference: u32)

  /** An interface in the specification of a node. */
  datatype NodeIface = NodeIface(name: string, ethernet: bool, labels: seq<string>, ips: seq<string>)

  type NodeSpecs = map<string, seq<NodeIface>>

  function VxlanEntry(node: string, name: string, vni: u32, src: string, dst: string): KV
  {
    KV(InterfaceKey(node, name),
       InterfaceBody(Iface(name, VxlanTunnel, true, "", [], 0, "", 0,
                           Vxlan(StripSlash(src), StripSlash(dst), vni), "")))
  }

  function LoopbackEntry(o: Options, node: string, address: string): KV
  {
    KV(InterfaceKey(node, LoopbackName(node)),
       InterfaceBody(Iface(LoopbackName(node), Loopback, true, "", [address], o.mtu, o.rxMode, 0, NoTunnel, "")))
  }

  function BridgeEntry(c: Conn, parms: BDParms, node: string, members: seq<Member>): KV
  {
    KV(BridgeKey(node, BridgeName(c)), BridgeBody(Bridge(BridgeName(c), parms, members)))
  }

  /** An Ethernet interface that carries the label, or is the node's only interface. */
  predicate Carries(spec: seq<NodeIface>, i: NodeIface, ifLabel: string)
  {
    i.ethernet && (ifLabel in i.labels || |spec| == 1)
  }

  function RouteEntry(o: Options, from: string, to: string, dst: string, out: NodeIface, via: NodeIface): KV
  {
    var nextHop := if via.ips == [] then "" else StripSlash(via.ips[0]);
    KV(RouteKey(from, 0, dst, nextHop),
       RouteBody(Route(0, "L3VRF_VXLAN Node:" + from + " to Node:" + to, dst, nextHop, o.weight, out.name,
                       o.preference)))
  }

  /**
   * The routes out of one interface to those of the other node's interfaces, of which vias is a part, that carry the
   * label.
   */
  function RoutesOut(o: Options, from: string, to: string, dst: string, out: NodeIface,
                     vias: seq<NodeIface>, spec: seq<NodeIface>): seq<KV>
    decreases vias
  {
    if vias == [] then [] else
      var via := vias[|vias| - 1];
      RoutesOut(o, from, to, dst, out, vias[..|vias| - 1], spec)
      + (if Carries(spec, via, o.ifLabel) then [RouteEntry(o, from, to, dst, out, via)] else [])
  }

  /** The routes out of those of a node's interfaces, of which outs is a part, that carry the label. */
  function Routes(o: Options, from: string, to: string, dst: string, outs: seq<NodeIface>,
                  spec: seq<NodeIface>, spec': seq<NodeIface>): seq<KV>
    decreases outs
  {
    if outs == [] then [] else
      var out := outs[|outs| - 1];
      Routes(o, from, to, dst, outs[..|outs| - 1], spec, spec')
      + (if Carries(spec, out, o.ifLabel) then RoutesOut(o, from, to, dst, out, spec', spec') else [])
  }

  /** The interfaces through which a node is reached have addresses; the source indexes the first one. */
  ghost predicate Addressed(o: Options, spec: seq<NodeIface>)
  {
    forall i | i in spec && Carries(spec, i, o.ifLabel) :: i.ips != []
  }

  /** The loopback of an endpoint and the routes to the other one. */
  function LoopbackAndRoutes(o: Options, specs: NodeSpecs, from: string, to: string, fromAddr: string,
                             toAddr: string): seq<KV>
    requires from in specs && to in specs
  {
    (if o.createLoopback then [LoopbackEntry(o, from, StripSlash(fromAddr))] else [])
    + (if o.createRoutes then Routes(o, from, to, StripSlash(toAddr), specs[from], specs[from], specs[to]) else [])
  }

  method RenderRoutesOut(o: Options, from: string, to: string, dst: string, out: NodeIface, spec: seq<NodeIface>)
    returns (kvs: seq<KV>)
    requires Addressed(o, spec)
    ensures kvs == RoutesOut(o, from, to, dst, out, spec, spec)
    ensures forall kv ::
              kv in kvs <==> exists via :: IsLabelled(o, spec, via) && RouteSays(o, from, to, dst, out, via, kv)
  {
    kvs := [];
    for j := 0 to |spec|
      invariant kvs == RoutesOut(o, from, to, dst, out, spec[..j], spec)
    {
      assert spec[..j + 1][..j] == spec[..j];
      if Carries(spec, spec[j], o.ifLabel) { kvs := kvs + [RouteEntry(o, from, to, dst, out, spec[j])]; }
    }
    assert spec[..|spec|] == spec;
    forall kv
      ensures kv in kvs <==> exists via :: IsLabelled(o, spec, via) && RouteSays(o, from, to, dst, out, via, kv)
    {
      RoutesOutAre(o, from, to, dst, out, spec, spec, kv);
    }
  }

  method RenderRoutes(o: Options, from: string, to: string, dst: string, spec: seq<NodeIface>, spec': seq<NodeIface>)
    returns (kvs: seq<KV>)
    requires Addressed(o, spec')
    ensures kvs == Routes(o, from, to, dst, spec, spec, spec')
    ensures forall kv :: kv in kvs <==> IsSomeRoute(o, from, to, dst, spec, spec', kv)
  {
    kvs := [];
    for i := 0 to |spec|
      invariant kvs == Routes(o, from, to, dst, spec[..i], spec, spec')
    {
      assert spec[..i + 1][..i] == spec[..i];
      if Carries(spec, spec[i], o.ifLabel) {
        var out := RenderRoutesOut(o, from, to, dst, spec[i], spec');
        kvs := kvs + out;
      }
    }
    assert spec[..|spec|] == spec;
    forall kv ensures kv in kvs <==> IsSomeRoute(o, from, to, dst, spec, spec', kv) {
      RoutesAre(o, from, to, dst, spec, spec', kv);
    }
  }

  /** Renders the loopback and, with nested loops over the interfaces of both nodes, the routes. */
  method RenderLoopbackAndRoutes(o: Options, specs: NodeSpecs, from: string, to: string, fromAddr: string,
                                 toAddr: string)
    returns (kvs: seq<KV>)
    requires from in specs && to in specs && (o.createRoutes ==> Addressed(o, specs[to]))
    ensures kvs == LoopbackAndRoutes(o, specs, from, to, fromAddr, toAddr)
    ensures forall kv :: kv in kvs <==>
              || (o.createLoopback && LoopbackSays(o, from, StripSlash(fromAddr), kv))
              || (o.createRoutes && IsSomeRoute(o, from, to, StripSlash(toAddr), specs[from], specs[to], kv))
  {
    kvs := [];
    if o.createLoopback { kvs := kvs + [LoopbackEntry(o, from, StripSlash(fromAddr))]; }
    ghost var loopback := kvs;
    forall kv ensures kv in loopback <==> o.createLoopback && LoopbackSays(o, from, StripSlash(fromAddr), kv) {
      LoopbackEntrySays(o, from, StripSlash(fromAddr), kv);
    }
    if o.createRoutes {
      var routes := RenderRoutes(o, from, to, StripSlash(toAddr), specs[from], specs[to]);
      kvs := kvs + routes;
      assert forall kv :: kv in kvs <==> kv in loopback || kv in routes;
    }
  }

  /** How generated names are put together, by example. */
  lemma MeshNameExample()
    ensures MeshName(Conn("s", 1, 5), "a", "b") == "IF_VXLAN_MESH_NET_SRVC_s_CONN_1_FROM_a_TO_b_VNI_5"
    ensures BridgeName(Conn("s", 1, 5)) == "BD_s_CONN_1" && LoopbackName("a") == "IF_VXLAN_LOOPBACK_a"
  {
    assert Label(Conn("s", 1, 5)) == "s_CONN_1";
    assert TUNNEL_PREFIX + "MESH_NET_SRVC_" + "s_CONN_1" == "IF_VXLAN_MESH_NET_SRVC_s_CONN_1";
    assert "IF_VXLAN_MESH_NET_SRVC_s_CONN_1" + "_FROM_" + "a" == "IF_VXLAN_MESH_NET_SRVC_s_CONN_1_FROM_a";
  }

  lemma HubNameExample()
    ensures HubName(Conn("s", 2, 5), "h", "a") == "IF_VXLAN_NET_SRVC_s_CONN_2_FROM_HUB_h_TO_SPOKE_a_VNI_5"
  {
    assert Label(Conn("s", 2, 5)) == "s_CONN_2";
    assert TUNNEL_PREFIX + "NET_SRVC_" + "s_CONN_2" == "IF_VXLAN_NET_SRVC_s_CONN_2";
    assert "IF_VXLAN_NET_SRVC_s_CONN_2" + "_FROM_HUB_" + "h" == "IF_VXLAN_NET_SRVC_s_CONN_2_FROM_HUB_h";
  }

  lemma SpokeNameExample()
    ensures SpokeName(Conn("s", 2, 5), "a", "h") == "IF_VXLAN_NET_SRVC_s_CONN_2_FROM_SPOKE_a_TO_HUB_h_VNI_5"
  {
    assert Label(Conn("s", 2, 5)) == "s_CONN_2";
    assert TUNNEL_PREFIX + "NET_SRVC_" + "s_CONN_2" == "IF_VXLAN_NET_SRVC_s_CONN_2";
    assert "IF_VXLAN_NET_SRVC_s_CONN_2" + "_FROM_SPOKE_" + "a" == "IF_VXLAN_NET_SRVC_s_CONN_2_FROM_SPOKE_a";
  }

  /** An Ethernet interface of a node through which the overlay goes: it has the label, or there is no other. */
  ghost predicate IsLabelled(o: Options, spec: seq<NodeIface>, i: NodeIface)
  {
    i in spec && i.ethernet && (o.ifLabel in i.labels || |spec| == 1)
  }

  /** The first address of an interface, without its prefix length. */
  function FirstAddress(i: NodeIface): string { if i.ips == [] then "" else StripSlash(i.ips[0]) }

  /**
   * A route at one node to a tunnel endpoint of another: it leaves by the node's own interface, to the address of the
   * other node's interface.
   */
  ghost predicate RouteSays(o: Options, from: string, to: string, dst: string, out: NodeIface, via: NodeIface, kv: KV)
  {
    && kv.key == RouteKey(from, 0, dst, FirstAddress(via)) && kv.body.RouteBody?
    && var r := kv.body.route;
    && r.vrf == 0 && r.dst == dst && r.nextHop == FirstAddress(via) && r.outgoing == out.name
    && r.weight == o.weight && r.preference == o.preference
    && r.description == "L3VRF_VXLAN Node:" + from + " to Node:" + to
  }

  /** A loopback at a node, switched on, with the address of the node's tunnel endpoint and no other. */
  ghost predicate LoopbackSays(o: Options, node: string, address: string, kv: KV)
  {
    && kv.key == InterfaceKey(node, "IF_VXLAN_LOOPBACK_" + node) && kv.body.InterfaceBody?
    && var i := kv.body.iface;
    && i.name == "IF_VXLAN_LOOPBACK_" + node && i.ifType == Loopback && i.enabled && i.physAddress == ""
    && i.ipAddresses == [address] && i.mtu == o.mtu && i.rxMode == o.rxMode && i.vrf == 0 && i.tunnel == NoTunnel
    && i.parameters == ""
  }

  lemma LoopbackEntrySays(o: Options, node: string, address: string, kv: KV)
    ensures kv == LoopbackEntry(o, node, address) <==> LoopbackSays(o, node, address, kv)
  {
    assert LoopbackName(node) == "IF_VXLAN_LOOPBACK_" + node;
  }

  lemma RouteEntrySays(o: Options, from: string, to: string, dst: string, out: NodeIface, via: NodeIface, kv: KV)
    ensures kv == RouteEntry(o, from, to, dst, out, via) <==> RouteSays(o, from, to, dst, out, via, kv)
  {}

  /** A route between interfaces of both nodes that carry the label. */
  ghost predicate IsRoute(o: Options, from: string, to: string, dst: string, spec: seq<NodeIface>,
                          spec': seq<NodeIface>, out: NodeIface, via: NodeIface, kv: KV)
  {
    IsLabelled(o, spec, out) && IsLabelled(o, spec', via) && RouteSays(o, from, to, dst, out, via, kv)
  }

  ghost predicate IsSomeRoute(o: Options, from: string, to: string, dst: string, spec: seq<NodeIface>,
                              spec': seq<NodeIface>, kv: KV)
  {
    exists out, via :: IsRoute(o, from, to, dst, spec, spec', out, via, kv)
  }

  lemma {:induction false} RoutesOutAre(o: Options, from: string, to: string, dst: string, out: NodeIface,
                                        vias: seq<NodeIface>, spec: seq<NodeIface>, kv: KV)
    ensures kv in RoutesOut(o, from, to, dst, out, vias, spec) <==>
              exists via :: via in vias && Carries(spec, via, o.ifLabel) && RouteSays(o, from, to, dst, out, via, kv)
    decreases vias
  {
    if vias != [] {
      RouteEntrySays(o, from, to, dst, out, vias[|vias| - 1], kv);
      var init, last := vias[..|vias| - 1], vias[|vias| - 1];
      RoutesOutAre(o, from, to, dst, out, init, spec, kv);
      assert forall via :: via in vias <==> via in init || via == last;
    }
  }

  lemma {:induction false} RoutesOfSome(o: Options, from: string, to: string, dst: string, outs: seq<NodeIface>,
                                        spec: seq<NodeIface>, spec': seq<NodeIface>, kv: KV)
    ensures kv in Routes(o, from, to, dst, outs, spec, spec') <==>
              exists out :: out in outs && Carries(spec, out, o.ifLabel) &&
                            kv in RoutesOut(o, from, to, dst, out, spec', spec')
    decreases outs
  {
    if outs != [] {
      var init, last := outs[..|outs| - 1], outs[|outs| - 1];
      RoutesOfSome(o, from, to, dst, init, spec, spec', kv);
      assert forall out :: out in outs <==> out in init || out == last;
    }
  }

  /** The routes are exactly those from every interface that carries the label to every one at the other node. */
  lemma RoutesAre(o: Options, from: string, to: string, dst: string, spec: seq<NodeIface>, spec': seq<NodeIface>,
                  kv: KV)
    ensures kv in Routes(o, from, to, dst, spec, spec, spec') <==> IsSomeRoute(o, from, to, dst, spec, spec', kv)
  {
    RoutesOfSome(o, from, to, dst, spec, spec, spec', kv);
    if out :| out in spec && Carries(spec, out, o.ifLabel) && kv in RoutesOut(o, from, to, dst, out, spec', spec') {
      RoutesOutAre(o, from, to, dst, out, spec', spec', kv);
      var via :| via in spec' && Carries(spec', via, o.ifLabel) && RouteSays(o, from, to, dst, out, via, kv);
      assert IsRoute(o, from, to, dst, spec, spec', out, via, kv);
    }
    if out, via :| IsRoute(o, from, to, dst, spec, spec', out, via, kv) {
      RoutesOutAre(o, from, to, dst, out, spec', spec', kv);
    }
  }
}
