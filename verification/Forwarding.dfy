/**
 * How the VPPs forward a flooded frame under a rendered configuration: bridges copy a frame to their
 * other members, except between members of one split-horizon group, and a VXLAN tunnel hands it to the
 * tunnel with the same VNI and the endpoints swapped.
 */
module Forwarding {
  import opened Entries

  type Config = map<Key, KV>

  datatype Port = Port(node: string, ifName: string)

  ghost predicate IsTunnel(cfg: Config, p: Port)
  {
    var k := InterfaceKey(p.node, p.ifName);
    k in cfg && cfg[k].body.InterfaceBody? && cfg[k].body.iface.tunnel.Vxlan?
  }

  ghost function TunnelAt(cfg: Config, p: Port): Tunnel
    requires IsTunnel(cfg, p)
    ensures TunnelAt(cfg, p).Vxlan?
  {
    cfg[InterfaceKey(p.node, p.ifName)].body.iface.tunnel
  }

  /** A tunnel that an agent sets up and that carries frames: a VXLAN interface under its own name, switched on. */
  ghost predicate TunnelUp(cfg: Config, p: Port)
  {
    && IsTunnel(cfg, p)
    && var i := cfg[InterfaceKey(p.node, p.ifName)].body.iface;
    i.name == p.ifName && i.ifType == VxlanTunnel && i.enabled
  }

  /** A frame sent into tunnel p comes out of tunnel q. */
  ghost predicate Linked(cfg: Config, p: Port, q: Port)
  {
    && TunnelUp(cfg, p) && TunnelUp(cfg, q)
    && TunnelAt(cfg, q) == Vxlan(TunnelAt(cfg, p).dst, TunnelAt(cfg, p).src, TunnelAt(cfg, p).vni)
  }

  /** A copy that a bridge makes: from one position of its member list to another. */
  datatype Hop = Hop(node: string, bridge: string, from: nat, to: nat)

  ghost predicate HasBridge(cfg: Config, node: string, name: string)
  {
    BridgeKey(node, name) in cfg && cfg[BridgeKey(node, name)].body.BridgeBody?
  }

  ghost function BridgeAt(cfg: Config, node: string, name: string): Bridge
    requires HasBridge(cfg, node, name)
  {
    cfg[BridgeKey(node, name)].body.bridge
  }

  ghost predicate Copies(cfg: Config, h: Hop)
  {
    && HasBridge(cfg, h.node, h.bridge)
    && var b := BridgeAt(cfg, h.node, h.bridge);
    && b.parms.flood && h.from < |b.members| && h.to < |b.members| && h.from != h.to
    && !(b.members[h.from].shg == b.members[h.to].shg != 0)
  }

  ghost function In(cfg: Config, h: Hop): Port
    requires Copies(cfg, h)
  {
    Port(h.node, BridgeAt(cfg, h.node, h.bridge).members[h.from].name)
  }

  ghost function Out(cfg: Config, h: Hop): Port
    requires Copies(cfg, h)
  {
    Port(h.node, BridgeAt(cfg, h.node, h.bridge).members[h.to].name)
  }

  /** The way of one copy of a frame through bridges and tunnels. */
  ghost predicate Path(cfg: Config, t: seq<Hop>)
  {
    && t != [] && (forall i | 0 <= i < |t| :: Copies(cfg, t[i]))
    && (forall i, j | 0 <= i && j == i + 1 < |t| :: Linked(cfg, Out(cfg, t[i]), In(cfg, t[j])))
  }

  /** A copy that enters at src is handed to the interface dst, which is no tunnel. */
  ghost predicate Delivers(cfg: Config, t: seq<Hop>, src: Port, dst: Port)
  {
    Path(cfg, t) && In(cfg, t[0]) == src && Out(cfg, t[|t| - 1]) == dst && !IsTunnel(cfg, dst)
  }

  /** One copy, and no more, of a frame that enters at src reaches dst. */
  ghost predicate DeliversOnce(cfg: Config, src: Port, dst: Port)
  {
    && (exists t :: Delivers(cfg, t, src, dst))
    && (forall t, u | Delivers(cfg, t, src, dst) && Delivers(cfg, u, src, dst) :: t == u)
  }

  /**
   * Every pod interface of a group hears a frame from src once, nothing else hears it, and no copy takes more than the
   * given hops.
   */
  ghost predicate FloodsOnce(cfg: Config, ports: seq<Port>, src: Port, hops: nat)
  {
    && (forall dst | dst in ports && dst != src :: DeliversOnce(cfg, src, dst))
    && (forall t, dst | Delivers(cfg, t, src, dst) :: dst in ports && dst != src)
    && (forall t | Path(cfg, t) && In(cfg, t[0]) == src :: |t| <= hops)
  }

  /** An interface that is there and is no tunnel. */
  ghost predicate Attached(cfg: Config, p: Port)
  {
    var k := InterfaceKey(p.node, p.ifName);
    k in cfg && cfg[k].body.InterfaceBody? && cfg[k].body.iface.tunnel.NoTunnel?
  }

  /** The group's interfaces are all there, and a frame from src floods exactly once among them. */
  ghost predicate Serves(cfg: Config, ports: seq<Port>, src: Port, hops: nat)
  {
    FloodsOnce(cfg, ports, src, hops) && forall p | p in ports :: Attached(cfg, p)
  }

  /**
   * A fabric: nodes with one bridge each, pod interfaces in group 0, and tunnels between linked nodes
   * in one group.
   */
  datatype Fabric = Fabric(bridge: string, links: set<(string, string)>, pods: map<string, set<string>>,
                           group: nat, tunnel: (string, string) -> string)
  {
    ghost predicate PodPort(p: Port) { p.node in pods && p.ifName in pods[p.node] }

    ghost predicate TunnelPort(p: Port, to: string) { (p.node, to) in links && p.ifName == tunnel(p.node, to) }

    /** A plain member of the bridge, which is not the bridge's own interface into the node. */
    ghost predicate IsMember(node: string, m: Member)
    {
      && !m.bvi
      && ((m.shg == 0 && PodPort(Port(node, m.name)))
          || (m.shg == group && exists to :: TunnelPort(Port(node, m.name), to)))
    }
  }

  ghost predicate DistinctNames(ms: seq<Member>)
  {
    forall i, j | 0 <= i < j < |ms| :: ms[i].name != ms[j].name
  }

  /** The bridge of a node has the node's pod interfaces and tunnels, each once, and floods. */
  ghost predicate BridgeRealizes(cfg: Config, f: Fabric, node: string)
  {
    && HasBridge(cfg, node, f.bridge)
    && var b := BridgeAt(cfg, node, f.bridge);
    && b.name == f.bridge && b.parms.flood && DistinctNames(b.members)
    && (forall m | m in b.members :: f.IsMember(node, m))
    && (forall x | f.PodPort(Port(node, x)) ::
          exists i | 0 <= i < |b.members| :: b.members[i].name == x && b.members[i].shg == 0)
    && (forall to | (node, to) in f.links ::
          exists i | 0 <= i < |b.members| :: b.members[i].name == f.tunnel(node, to) && b.members[i].shg == f.group)
  }

  /** No other bridge of the node has one of its fabric interfaces. */
  ghost predicate NoOtherBridge(cfg: Config, f: Fabric, node: string)
  {
    forall name, m | HasBridge(cfg, node, name) && m in BridgeAt(cfg, node, name).members ::
      f.PodPort(Port(node, m.name)) || (exists to :: f.TunnelPort(Port(node, m.name), to)) ==> name == f.bridge
  }

  /** The configuration builds the fabric. */
  ghost predicate Realizes(cfg: Config, f: Fabric)
  {
    && (forall n | n in f.pods :: BridgeRealizes(cfg, f, n) && NoOtherBridge(cfg, f, n))
    && (forall a, b | (a, b) in f.links :: a in f.pods && b in f.pods && a != b && (b, a) in f.links)
    && (forall p | f.PodPort(p) :: !IsTunnel(cfg, p))
    && (forall a, b, q | (a, b) in f.links ::
          Linked(cfg, Port(a, f.tunnel(a, b)), q) <==> q == Port(b, f.tunnel(b, a)))
    && (forall a, b, c | (a, b) in f.links && (a, c) in f.links && f.tunnel(a, b) == f.tunnel(a, c) :: b == c)
  }

  lemma TunnelIsTunnel(cfg: Config, f: Fabric, a: string, b: string)
    requires Realizes(cfg, f) && (a, b) in f.links
    ensures IsTunnel(cfg, Port(a, f.tunnel(a, b)))
  {
    assert Linked(cfg, Port(a, f.tunnel(a, b)), Port(b, f.tunnel(b, a)));
  }

  /** A copy that enters the fabric at a node stays in the node's bridge and leaves by another of its members. */
  lemma HopInFabric(cfg: Config, f: Fabric, h: Hop)
    requires Copies(cfg, h) && BridgeRealizes(cfg, f, h.node) && NoOtherBridge(cfg, f, h.node)
    requires f.PodPort(In(cfg, h)) || exists to :: f.TunnelPort(In(cfg, h), to)
    ensures h.bridge == f.bridge && Out(cfg, h) != In(cfg, h)
    ensures f.PodPort(Out(cfg, h)) || exists to :: f.TunnelPort(Out(cfg, h), to)
  {
    var ms := BridgeAt(cfg, h.node, h.bridge).members;
    assert ms[h.from] in ms && ms[h.to] in ms;
    assert h.bridge == f.bridge;
    assert f.IsMember(h.node, ms[h.to]);
    assert DistinctNames(ms);
  }

  /** The split-horizon groups of a hop's members. */
  lemma HopGroups(cfg: Config, f: Fabric, h: Hop, a: string, b: string)
    requires Realizes(cfg, f) && Copies(cfg, h) && h.node in f.pods && h.bridge == f.bridge
    requires f.TunnelPort(In(cfg, h), a) && f.TunnelPort(Out(cfg, h), b)
    ensures f.group == 0
  {
    var ms := BridgeAt(cfg, h.node, h.bridge).members;
    assert BridgeRealizes(cfg, f, h.node);
    assert ms[h.from] in ms && ms[h.to] in ms;
    assert f.IsMember(h.node, ms[h.from]) && f.IsMember(h.node, ms[h.to]);
    TunnelIsTunnel(cfg, f, h.node, a);
    TunnelIsTunnel(cfg, f, h.node, b);
    assert !f.PodPort(In(cfg, h)) && !f.PodPort(Out(cfg, h));
  }

  /** A hop is determined by the fabric ports that it joins. */
  lemma HopIsUnique(cfg: Config, f: Fabric, h: Hop, g: Hop)
    requires Realizes(cfg, f) && Copies(cfg, h) && Copies(cfg, g) && h.node in f.pods
    requires h.bridge == g.bridge == f.bridge && In(cfg, h) == In(cfg, g) && Out(cfg, h) == Out(cfg, g)
    ensures h == g
  {
    assert BridgeRealizes(cfg, f, h.node);
    assert DistinctNames(BridgeAt(cfg, h.node, f.bridge).members);
  }

  /** A frame leaves a tunnel towards a node at the node's tunnel back. */
  lemma NextNode(cfg: Config, f: Fabric, p: Port, to: string, q: Port)
    requires Realizes(cfg, f) && f.TunnelPort(p, to) && Linked(cfg, p, q)
    ensures q == Port(to, f.tunnel(to, p.node)) && f.TunnelPort(q, p.node)
  {}

  /** The hop from one fabric port of a node to another, where the groups allow it. */
  lemma MakeHop(cfg: Config, f: Fabric, n: string, x: string, y: string) returns (h: Hop)
    requires BridgeRealizes(cfg, f, n) && x != y
    requires f.PodPort(Port(n, x)) || exists to :: f.TunnelPort(Port(n, x), to)
    requires f.PodPort(Port(n, y)) || exists to :: f.TunnelPort(Port(n, y), to)
    requires f.group == 0 || f.PodPort(Port(n, x)) || f.PodPort(Port(n, y))
    ensures Copies(cfg, h) && h.node == n && In(cfg, h) == Port(n, x) && Out(cfg, h) == Port(n, y)
  {
    var i := MemberAt(cfg, f, n, x);
    var j := MemberAt(cfg, f, n, y);
    h := Hop(n, f.bridge, i, j);
  }

  lemma MemberAt(cfg: Config, f: Fabric, n: string, x: string) returns (i: nat)
    requires BridgeRealizes(cfg, f, n)
    requires f.PodPort(Port(n, x)) || exists to :: f.TunnelPort(Port(n, x), to)
    ensures HasBridge(cfg, n, f.bridge) && i < |BridgeAt(cfg, n, f.bridge).members|
    ensures var m := BridgeAt(cfg, n, f.bridge).members[i];
            m.name == x && m.shg == if f.PodPort(Port(n, x)) then 0 else f.group
  {
    if f.PodPort(Port(n, x)) {
      i :| 0 <= i < |BridgeAt(cfg, n, f.bridge).members| &&
        BridgeAt(cfg, n, f.bridge).members[i].name == x && BridgeAt(cfg, n, f.bridge).members[i].shg == 0;
    } else {
      var to :| f.TunnelPort(Port(n, x), to);
      i :| 0 <= i < |BridgeAt(cfg, n, f.bridge).members| &&
        BridgeAt(cfg, n, f.bridge).members[i].name == x && BridgeAt(cfg, n, f.bridge).members[i].shg == f.group;
    }
  }
}
