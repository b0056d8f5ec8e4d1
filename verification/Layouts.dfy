/** An overlay as a whole: which entries its renderer adds, in whatever order, and that they build its fabric. */
module Layouts {
  import opened Addresses
  import opened Entries
  import opened SortedMembers
  import opened Layers
  import opened Forwarding
  import opened Overlay

  /**
   * What an overlay connects: nodes with their tunnel addresses, ordered pairs of nodes with a tunnel
   * from the first to the second, and the pod interfaces at the nodes.
   */
  datatype Layout = Layout(conn: Conn, name: (string, string) -> string, opts: Options, specs: NodeSpecs,
                           addr: map<string, string>, nodes: set<string>, links: set<(string, string)>,
                           ports: seq<Port>, parms: BDParms, group: nat)
  {
    ghost predicate Valid()
    {
      && nodes <= specs.Keys && (forall a, b | (a, b) in links :: a in addr)
      && (forall a, b | (a, b) in links :: a in nodes && b in nodes && a != b && (b, a) in links)
      && (forall a, b | a in addr && b in addr && StripSlash(addr[a]) == StripSlash(addr[b]) :: a == b)
      && (forall a, b | (a, b) in links :: TUNNEL_PREFIX <= name(a, b) && name(a, b) != LoopbackName(a))
      && (forall a, b, c | (a, b) in links && (a, c) in links && name(a, b) == name(a, c) :: b == c)
      && (forall p | p in ports :: p.node in nodes && !(TUNNEL_PREFIX <= p.ifName))
      && (forall i, j | 0 <= i < j < |ports| :: ports[i] != ports[j])
    }

    ghost function TunnelBlock(a: string, b: string): seq<KV>
      requires a in addr && b in addr
    {
      [VxlanEntry(a, name(a, b), conn.vni, addr[a], addr[b])]
    }

    ghost function RouteBlock(a: string, b: string): seq<KV>
      requires a in addr && b in addr && a in specs && b in specs
    {
      LoopbackAndRoutes(opts, specs, a, b, addr[a], addr[b])
    }

    ghost function TunnelMember(a: string, b: string): Member { Member(name(a, b), false, group) }

    ghost function TunnelMembers(a: string): set<Member>
    {
      set q | q in links && q.0 == a :: TunnelMember(a, q.1)
    }

    /** The members of a node's bridge, in whatever order they were collected. */
    ghost function Bag(n: string): multiset<Member> { multiset(PodMembers(ports, n)) + multiset(TunnelMembers(n)) }

    ghost function BridgeBlock(n: string): seq<KV> { [BridgeEntry(conn, parms, n, SortedOf(Bag(n)))] }

    ghost function ToFabric(): Fabric
    {
      Fabric(BridgeName(conn), links, map n | n in nodes :: PodNames(ports, n), group, name)
    }
  }

  /** The pod interfaces at a node as bridge members, in the order of the connection. */
  function PodMembers(ports: seq<Port>, n: string): seq<Member>
    decreases ports
  {
    if ports == [] then [] else
      PodMembers(ports[..|ports| - 1], n)
      + (if ports[|ports| - 1].node == n then [Member(ports[|ports| - 1].ifName, false, 0)] else [])
  }

  ghost function PodNames(ports: seq<Port>, n: string): set<string> { set p | p in ports && p.node == n :: p.ifName }

  ghost predicate IsBlock(l: Layout, x: seq<KV>)
    requires l.Valid()
  {
    IsTunnelBlock(l, x) || IsRouteBlock(l, x) || IsBridgeBlock(l, x)
  }

  /** The blocks are those of the layout. */
  ghost predicate IsRendering(l: Layout, blocks: seq<seq<KV>>)
    requires l.Valid()
  {
    forall x :: x in blocks <==> IsBlock(l, x)
  }

  ghost predicate IsTunnelBlock(l: Layout, x: seq<KV>)
    requires l.Valid()
  {
    exists a, b :: (a, b) in l.links && x == l.TunnelBlock(a, b)
  }

  ghost predicate IsRouteBlock(l: Layout, x: seq<KV>)
    requires l.Valid()
  {
    exists a, b :: (a, b) in l.links && x == l.RouteBlock(a, b)
  }

  ghost predicate IsBridgeBlock(l: Layout, x: seq<KV>)
    requires l.Valid()
  {
    exists n :: n in l.nodes && x == l.BridgeBlock(n)
  }

  lemma OwnOne(kv: KV)
    ensures Own([kv]) == map[kv.key := kv]
  {
    assert [kv][..|[kv]| - 1] == [];
    assert Own([]) == map[];
  }

  lemma {:induction false} RoutesOutKeys(o: Options, from: string, to: string, dst: string, out: NodeIface,
                                         vias: seq<NodeIface>, spec: seq<NodeIface>, kv: KV)
    requires kv in RoutesOut(o, from, to, dst, out, vias, spec)
    ensures kv.key.RouteKey? && kv.key.agent == from && kv.key.dst == dst
    decreases vias
  {
    if kv in RoutesOut(o, from, to, dst, out, vias[..|vias| - 1], spec) {
      RoutesOutKeys(o, from, to, dst, out, vias[..|vias| - 1], spec, kv);
    }
  }

  lemma {:induction false} RoutesKeys(o: Options, from: string, to: string, dst: string, outs: seq<NodeIface>,
                                      spec: seq<NodeIface>, spec': seq<NodeIface>, kv: KV)
    requires kv in Routes(o, from, to, dst, outs, spec, spec')
    ensures kv.key.RouteKey? && kv.key.agent == from && kv.key.dst == dst
    decreases outs
  {
    if kv in Routes(o, from, to, dst, outs[..|outs| - 1], spec, spec') {
      RoutesKeys(o, from, to, dst, outs[..|outs| - 1], spec, spec', kv);
    } else {
      RoutesOutKeys(o, from, to, dst, outs[|outs| - 1], spec', spec', kv);
    }
  }

  lemma RouteBlockKeys(l: Layout, a: string, b: string, kv: KV)
    requires l.Valid() && (a, b) in l.links && kv in l.RouteBlock(a, b)
    ensures kv == LoopbackEntry(l.opts, a, StripSlash(l.addr[a]))
         || (kv.key.RouteKey? && kv.key.agent == a && kv.key.dst == StripSlash(l.addr[b]))
  {
    if kv != LoopbackEntry(l.opts, a, StripSlash(l.addr[a])) {
      RoutesKeys(l.opts, a, b, StripSlash(l.addr[b]), l.specs[a], l.specs[a], l.specs[b], kv);
    }
  }

  /** What a block of the layout can hold under an interface key. */
  lemma InterfaceOrigin(l: Layout, x: seq<KV>, k: Key)
    requires l.Valid() && k.InterfaceKey? && k in Own(x)
    requires IsBlock(l, x)
    ensures (exists b :: (k.agent, b) in l.links && k.name == l.name(k.agent, b) && x == l.TunnelBlock(k.agent, b))
         || (k.agent in l.addr && k.name == LoopbackName(k.agent)
             && Own(x)[k] == LoopbackEntry(l.opts, k.agent, StripSlash(l.addr[k.agent])))
  {
    OwnKeys(x, k);
    if IsTunnelBlock(l, x) {
      var a, b :| (a, b) in l.links && x == l.TunnelBlock(a, b);
    } else if IsRouteBlock(l, x) {
      var a, b :| (a, b) in l.links && x == l.RouteBlock(a, b);
      RouteBlockKeys(l, a, b, Own(x)[k]);
    }
  }

  /** A block with a route's key holds the routes of a link from the key's agent to its destination. */
  lemma RouteOrigin(l: Layout, x: seq<KV>, k: Key) returns (b: string)
    requires l.Valid() && IsBlock(l, x) && k.RouteKey? && k in Own(x)
    ensures (k.agent, b) in l.links && x == l.RouteBlock(k.agent, b) && k.dst == StripSlash(l.addr[b])
  {
    OwnKeys(x, k);
    var a, c :| (a, c) in l.links && x == l.RouteBlock(a, c);
    RouteBlockKeys(l, a, c, Own(x)[k]);
    b := c;
  }

  /** Any two blocks of a layout agree on the keys that both have. */
  lemma BlocksAgree(l: Layout, x: seq<KV>, y: seq<KV>, k: Key)
    requires l.Valid() && k in Own(x) && k in Own(y) && IsBlock(l, x) && IsBlock(l, y)
    ensures Own(x)[k] == Own(y)[k]
  {
    if k.InterfaceKey? {
      InterfaceOrigin(l, x, k);
      InterfaceOrigin(l, y, k);
    } else if k.RouteKey? {
      var b := RouteOrigin(l, x, k);
      var c := RouteOrigin(l, y, k);
    } else {
      NotFromRoutes(l, x, k);
      NotFromRoutes(l, y, k);
    }
  }

  lemma NotFromRoutes(l: Layout, x: seq<KV>, k: Key)
    requires l.Valid() && k in Own(x) && !k.InterfaceKey? && !k.RouteKey?
    requires IsBlock(l, x)
    ensures k.BridgeKey? && k.agent in l.nodes && x == l.BridgeBlock(k.agent)
  {
    OwnKeys(x, k);
    if IsRouteBlock(l, x) {
      var a, b :| (a, b) in l.links && x == l.RouteBlock(a, b);
      RouteBlockKeys(l, a, b, Own(x)[k]);
    }
  }

  /** The blocks of a layout's rendering are compatible. */
  lemma RenderingCompatible(l: Layout, blocks: seq<seq<KV>>)
    requires l.Valid() && IsRendering(l, blocks)
    ensures AllCompatible(blocks)
  {
    forall x, y, k | x in blocks && y in blocks && k in Own(x) && k in Own(y) ensures Own(x)[k] == Own(y)[k] {
      BlocksAgree(l, x, y, k);
    }
  }

  /** All orders in which a renderer may go through the nodes give the same entries. */
  lemma RenderingIsCanonical(l: Layout, m: map<Key, KV>, x: seq<seq<KV>>, y: seq<seq<KV>>)
    requires l.Valid() && IsRendering(l, x) && IsRendering(l, y)
    ensures LayBlocks(m, x) == LayBlocks(m, y)
  {
    RenderingCompatible(l, x);
    OrderDoesNotMatter(m, x, y);
  }

  lemma {:induction false} PodMembersAre(ports: seq<Port>, n: string, m: Member)
    ensures m in PodMembers(ports, n) <==> m.shg == 0 && !m.bvi && Port(n, m.name) in ports
    decreases ports
  {
    if ports != [] {
      PodMembersAre(ports[..|ports| - 1], n, m);
      assert ports == ports[..|ports| - 1] + [ports[|ports| - 1]];
    }
  }

  lemma {:induction false} PodMemberOnce(ports: seq<Port>, n: string, m: Member)
    requires forall i, j | 0 <= i < j < |ports| :: ports[i] != ports[j]
    ensures multiset(PodMembers(ports, n))[m] <= 1
    decreases ports
  {
    if ports != [] {
      var init, last := ports[..|ports| - 1], ports[|ports| - 1];
      PodMemberOnce(init, n, m);
      PodMembersAre(init, n, m);
      if last.node == n && m == Member(last.ifName, false, 0) { assert last !in init; }
    }
  }

  /** Every member of a node's bridge is one of its pod interfaces or one of its tunnels, and stands there once. */
  lemma BagMember(l: Layout, n: string, m: Member)
    requires l.Valid()
    ensures m in l.Bag(n) <==> (m in PodMembers(l.ports, n) || m in l.TunnelMembers(n))
    ensures l.Bag(n)[m] <= 1
    ensures m in PodMembers(l.ports, n) ==>
              m.shg == 0 && !m.bvi && Port(n, m.name) in l.ports && !(TUNNEL_PREFIX <= m.name)
    ensures m in l.TunnelMembers(n) ==> m.shg == l.group && !m.bvi && TUNNEL_PREFIX <= m.name
  {
    PodMembersAre(l.ports, n, m);
    PodMemberOnce(l.ports, n, m);
  }

  lemma BagNames(l: Layout, n: string, x: Member, y: Member)
    requires l.Valid() && x in l.Bag(n) && y in l.Bag(n) && x.name == y.name
    ensures x == y
  {
    BagMember(l, n, x);
    BagMember(l, n, y);
    PodMembersAre(l.ports, n, x);
    PodMembersAre(l.ports, n, y);
  }

  lemma BridgeMembers(l: Layout, n: string)
    requires l.Valid()
    ensures NamesIdentify(SortedOf(l.Bag(n))) && DistinctNames(SortedOf(l.Bag(n)))
    ensures forall m :: m in SortedOf(l.Bag(n)) <==> m in l.Bag(n)
  {
    var ms := SortedOf(l.Bag(n));
    SortedOfSorts(l.Bag(n));
    assert forall m :: m in ms <==> m in multiset(ms);
    forall x, y | x in ms && y in ms && x.name == y.name ensures x == y { BagNames(l, n, x, y); }
    forall m ensures multiset(ms)[m] <= 1 { BagMember(l, n, m); }
    forall i, j | 0 <= i < j < |ms| ensures ms[i].name != ms[j].name { NamesAreDistinct(ms, i, j); }
  }

  /** A bridge has the pod interfaces of its node, in group 0, and the node's tunnels. */
  lemma BridgeHas(l: Layout, n: string, m: Member)
    requires l.Valid()
    ensures m in SortedOf(l.Bag(n)) <==> (Port(n, m.name) in l.ports && !m.bvi && m.shg == 0) || m in l.TunnelMembers(n)
  {
    BridgeMembers(l, n);
    BagMember(l, n, m);
    PodMembersAre(l.ports, n, m);
  }

  /** The tunnel of a link. */
  ghost function TunnelOf(l: Layout, a: string, b: string): Tunnel
    requires a in l.addr && b in l.addr
  {
    Vxlan(StripSlash(l.addr[a]), StripSlash(l.addr[b]), l.conn.vni)
  }

  /** None of the connection's interfaces is a tunnel. */
  ghost predicate PortsFree(m: map<Key, KV>, l: Layout) { forall p | p in l.ports :: !IsTunnel(m, p) }

  /** No tunnel has the endpoints and VNI of a link. */
  ghost predicate Unlike(m: map<Key, KV>, l: Layout)
    requires l.Valid()
  {
    forall p, a, b | IsTunnel(m, p) && (a, b) in l.links :: TunnelAt(m, p) != TunnelOf(l, a, b)
  }

  /** No bridge of another name has an interface of the connection. */
  ghost predicate ForeignBridges(m: map<Key, KV>, l: Layout)
  {
    forall n, name, x | HasBridge(m, n, name) && name != BridgeName(l.conn) && x in BridgeAt(m, n, name).members ::
      Port(n, x.name) !in l.ports && forall b | (n, b) in l.links :: x.name != l.name(n, b)
  }

  /** Entries from before the overlay that do not interfere with it. */
  ghost predicate Foreign(m: map<Key, KV>, l: Layout)
    requires l.Valid()
  {
    PortsFree(m, l) && Unlike(m, l) && ForeignBridges(m, l)
  }

  /** The key of a tunnel or of a bridge of the overlay. */
  ghost predicate KeyOf(l: Layout, k: Key)
  {
    || (k.InterfaceKey? && exists b :: (k.agent, b) in l.links && k.name == l.name(k.agent, b))
    || (k.BridgeKey? && k.agent in l.nodes && k.name == BridgeName(l.conn))
  }

  /** A block of entries that writes none of the overlay's tunnels and bridges and takes none of its interfaces. */
  ghost predicate Beside(x: seq<KV>, l: Layout)
  {
    (forall k | k in Own(x) :: !KeyOf(l, k)) && PortsFree(Own(x), l) && ForeignBridges(Own(x), l)
  }

  /** The overlay's blocks with others beside them. */
  ghost predicate Among(l: Layout, all: seq<seq<KV>>)
    requires l.Valid()
  {
    && (forall x | IsBlock(l, x) :: x in all)
    && (forall x | x in all :: IsBlock(l, x) || Beside(x, l))
  }

  /** The other blocks have no tunnel like those of the overlay. */
  ghost predicate AllUnlike(l: Layout, all: seq<seq<KV>>)
    requires l.Valid()
  {
    forall x | x in all :: IsBlock(l, x) || Unlike(Own(x), l)
  }

  /** What an overlay's block has under a key of the overlay stands in the configuration. */
  lemma KeySettled(l: Layout, m: map<Key, KV>, all: seq<seq<KV>>, x: seq<KV>, k: Key)
    requires l.Valid() && Among(l, all) && IsBlock(l, x) && k in Own(x) && KeyOf(l, k)
    ensures k in LayBlocks(m, all) && LayBlocks(m, all)[k] == Own(x)[k]
  {
    forall a, b | a in all && b in all && k in Own(a) && k in Own(b) ensures Own(a)[k] == Own(b)[k] {
      BlocksAgree(l, a, b, k);
    }
    LayBlocksAt(m, all, k, x);
  }

  lemma TunnelRendered(l: Layout, m: map<Key, KV>, all: seq<seq<KV>>, a: string, b: string)
    requires l.Valid() && Among(l, all) && (a, b) in l.links
    ensures var cfg := LayBlocks(m, all); var p := Port(a, l.name(a, b));
            && TunnelUp(cfg, p) && TunnelAt(cfg, p) == TunnelOf(l, a, b)
            && cfg[InterfaceKey(a, l.name(a, b))].body.iface
               == Iface(l.name(a, b), VxlanTunnel, true, "", [], 0, "", 0, TunnelOf(l, a, b), "")
  {
    var kv := VxlanEntry(a, l.name(a, b), l.conn.vni, l.addr[a], l.addr[b]);
    OwnOne(kv);
    assert IsTunnelBlock(l, l.TunnelBlock(a, b));
    KeySettled(l, m, all, l.TunnelBlock(a, b), kv.key);
  }

  /** In the overlay's own rendering every entry of its blocks stands, and is that of some block with its key. */
  lemma BlockStands(l: Layout, m: map<Key, KV>, all: seq<seq<KV>>, x: seq<KV>, k: Key)
    requires l.Valid() && IsRendering(l, all) && IsBlock(l, x) && k in Own(x)
    ensures k in LayBlocks(m, all) && LayBlocks(m, all)[k] == Own(x)[k]
  {
    forall a, b | a in all && b in all && k in Own(a) && k in Own(b) ensures Own(a)[k] == Own(b)[k] {
      BlocksAgree(l, a, b, k);
    }
    LayBlocksAt(m, all, k, x);
  }

  /** With loopbacks, the source of every tunnel is the address of a loopback of its own node, which is switched on. */
  lemma SourceIsLocal(l: Layout, m: map<Key, KV>, all: seq<seq<KV>>, a: string, b: string)
    requires l.Valid() && IsRendering(l, all) && (a, b) in l.links && l.opts.createLoopback
    ensures var cfg := LayBlocks(m, all); var k, p := InterfaceKey(a, LoopbackName(a)), Port(a, l.name(a, b));
            && k in cfg && IsTunnel(cfg, p) && LoopbackSays(l.opts, a, TunnelAt(cfg, p).src, cfg[k])
  {
    var src, k := StripSlash(l.addr[a]), InterfaceKey(a, LoopbackName(a));
    var kv := LoopbackEntry(l.opts, a, src);
    assert Among(l, all);
    TunnelRendered(l, m, all, a, b);
    LoopbackEntrySays(l.opts, a, src, kv);
    assert kv == l.RouteBlock(a, b)[0] && IsRouteBlock(l, l.RouteBlock(a, b));
    OwnHas(l.RouteBlock(a, b), kv);
    RouteBlockAt(l, a, b, k);
    BlockStands(l, m, all, l.RouteBlock(a, b), k);
  }

  /** What a link's block holds under its loopback's key. */
  lemma RouteBlockAt(l: Layout, a: string, b: string, k: Key)
    requires l.Valid() && (a, b) in l.links && k in Own(l.RouteBlock(a, b)) && k.InterfaceKey?
    ensures Own(l.RouteBlock(a, b))[k] == LoopbackEntry(l.opts, a, StripSlash(l.addr[a]))
  {
    OwnKeys(l.RouteBlock(a, b), k);
    RouteBlockKeys(l, a, b, Own(l.RouteBlock(a, b))[k]);
  }

  /**
   * With routes, the destination of every tunnel is routed by way of each interface of the other node that carries the
   * label: out of an interface of the tunnel's own node that carries it.
   */
  lemma DestinationIsRouted(l: Layout, m: map<Key, KV>, all: seq<seq<KV>>, a: string, b: string, out: NodeIface,
                            via: NodeIface)
    returns (out': NodeIface)
    requires l.Valid() && IsRendering(l, all) && (a, b) in l.links && l.opts.createRoutes
    requires IsLabelled(l.opts, l.specs[a], out) && IsLabelled(l.opts, l.specs[b], via)
    ensures var cfg := LayBlocks(m, all); var p := Port(a, l.name(a, b));
            && IsTunnel(cfg, p)
            && var k := RouteKey(a, 0, TunnelAt(cfg, p).dst, FirstAddress(via));
            && k in cfg && IsLabelled(l.opts, l.specs[a], out')
            && exists via' :: IsLabelled(l.opts, l.specs[b], via') && FirstAddress(via') == FirstAddress(via) &&
                              RouteSays(l.opts, a, b, TunnelAt(cfg, p).dst, out', via', cfg[k])
  {
    var dst, x := StripSlash(l.addr[b]), l.RouteBlock(a, b);
    var k := RouteKey(a, 0, dst, FirstAddress(via));
    var kv := RouteEntry(l.opts, a, b, dst, out, via);
    assert Among(l, all);
    TunnelRendered(l, m, all, a, b);
    RouteEntrySays(l.opts, a, b, dst, out, via, kv);
    assert IsRoute(l.opts, a, b, dst, l.specs[a], l.specs[b], out, via, kv);
    RoutesAre(l.opts, a, b, dst, l.specs[a], l.specs[b], kv);
    assert IsRouteBlock(l, x);
    OwnHas(x, kv);
    OwnKeys(x, k);
    var rv := Own(x)[k];
    LoopbackIsNoRoute(l, a, b, rv);
    RoutesAre(l.opts, a, b, dst, l.specs[a], l.specs[b], rv);
    var o, v :| IsRoute(l.opts, a, b, dst, l.specs[a], l.specs[b], o, v, rv);
    out' := o;
    BlockStands(l, m, all, x, k);
  }

  lemma LoopbackIsNoRoute(l: Layout, a: string, b: string, kv: KV)
    requires l.Valid() && (a, b) in l.links && kv in l.RouteBlock(a, b) && kv.key.RouteKey?
    ensures l.opts.createRoutes
    ensures kv in Routes(l.opts, a, b, StripSlash(l.addr[b]), l.specs[a], l.specs[a], l.specs[b])
  {}

  lemma BridgeRendered(l: Layout, m: map<Key, KV>, all: seq<seq<KV>>, n: string)
    requires l.Valid() && Among(l, all) && n in l.nodes
    ensures var cfg := LayBlocks(m, all);
            && HasBridge(cfg, n, BridgeName(l.conn))
            && BridgeAt(cfg, n, BridgeName(l.conn)) == Bridge(BridgeName(l.conn), l.parms, SortedOf(l.Bag(n)))
  {
    var kv := BridgeEntry(l.conn, l.parms, n, SortedOf(l.Bag(n)));
    OwnOne(kv);
    assert IsBridgeBlock(l, l.BridgeBlock(n));
    KeySettled(l, m, all, l.BridgeBlock(n), kv.key);
  }

  /** A tunnel that a block of the overlay has is the tunnel of a link. */
  lemma BlockTunnel(l: Layout, x: seq<KV>, p: Port)
    requires l.Valid() && IsBlock(l, x) && IsTunnel(Own(x), p)
    ensures exists b :: (p.node, b) in l.links && p.ifName == l.name(p.node, b) &&
                        TunnelAt(Own(x), p) == TunnelOf(l, p.node, b)
    ensures TUNNEL_PREFIX <= p.ifName
  {
    InterfaceOrigin(l, x, InterfaceKey(p.node, p.ifName));
    var b :| (p.node, b) in l.links && p.ifName == l.name(p.node, b) && x == l.TunnelBlock(p.node, b);
    OwnOne(x[0]);
  }

  /** Where a tunnel of the configuration comes from. */
  lemma TunnelFrom(m: map<Key, KV>, all: seq<seq<KV>>, p: Port)
    requires IsTunnel(LayBlocks(m, all), p)
    ensures || (IsTunnel(m, p) && TunnelAt(LayBlocks(m, all), p) == TunnelAt(m, p))
            || exists x :: x in all && IsTunnel(Own(x), p) && TunnelAt(LayBlocks(m, all), p) == TunnelAt(Own(x), p)
  {
    LayBlocksFrom(m, all, InterfaceKey(p.node, p.ifName));
  }

  lemma PortsStayFree(l: Layout, m: map<Key, KV>, all: seq<seq<KV>>, p: Port)
    requires l.Valid() && Among(l, all) && PortsFree(m, l) && p in l.ports
    ensures !IsTunnel(LayBlocks(m, all), p)
  {
    if IsTunnel(LayBlocks(m, all), p) {
      TunnelFrom(m, all, p);
      if x :| x in all && IsTunnel(Own(x), p) {
        if IsBlock(l, x) { BlockTunnel(l, x, p); }
      }
    }
  }

  /** The only tunnels with the endpoints and VNI of a link are the link's own. */
  lemma OnlyTheseTunnels(l: Layout, m: map<Key, KV>, all: seq<seq<KV>>, p: Port, a: string, b: string)
    requires l.Valid() && AllUnlike(l, all) && Unlike(m, l) && (a, b) in l.links
    requires IsTunnel(LayBlocks(m, all), p) && TunnelAt(LayBlocks(m, all), p) == TunnelOf(l, a, b)
    ensures p == Port(a, l.name(a, b))
  {
    TunnelFrom(m, all, p);
    var x :| x in all && IsTunnel(Own(x), p) && TunnelAt(LayBlocks(m, all), p) == TunnelAt(Own(x), p);
    BlockTunnel(l, x, p);
  }

  /** A frame sent into a tunnel of the overlay comes out at the tunnel of the opposite link, and there only. */
  lemma LinkedExactly(l: Layout, m: map<Key, KV>, all: seq<seq<KV>>, a: string, b: string, q: Port)
    requires l.Valid() && Among(l, all) && AllUnlike(l, all) && Unlike(m, l) && (a, b) in l.links
    ensures Linked(LayBlocks(m, all), Port(a, l.name(a, b)), q) <==> q == Port(b, l.name(b, a))
  {
    TunnelRendered(l, m, all, a, b);
    TunnelRendered(l, m, all, b, a);
    if Linked(LayBlocks(m, all), Port(a, l.name(a, b)), q) { OnlyTheseTunnels(l, m, all, q, b, a); }
  }

  lemma BridgesStayForeign(l: Layout, m: map<Key, KV>, all: seq<seq<KV>>, n: string, name: string, x: Member)
    requires l.Valid() && Among(l, all) && ForeignBridges(m, l) && name != BridgeName(l.conn)
    requires HasBridge(LayBlocks(m, all), n, name) && x in BridgeAt(LayBlocks(m, all), n, name).members
    ensures Port(n, x.name) !in l.ports && forall b | (n, b) in l.links :: x.name != l.name(n, b)
  {
    var k := BridgeKey(n, name);
    LayBlocksFrom(m, all, k);
    if y :| y in all && k in Own(y) && LayBlocks(m, all)[k] == Own(y)[k] {
      if IsBlock(l, y) {
        NotFromRoutes(l, y, k);
        OwnKeys(y, k);
      } else {
        assert HasBridge(Own(y), n, name) && x in BridgeAt(Own(y), n, name).members;
      }
    } else {
      assert HasBridge(m, n, name) && x in BridgeAt(m, n, name).members;
    }
  }

  lemma BridgeRealized(l: Layout, m: map<Key, KV>, all: seq<seq<KV>>, n: string)
    requires l.Valid() && Among(l, all) && n in l.nodes && l.parms.flood
    ensures BridgeRealizes(LayBlocks(m, all), l.ToFabric(), n)
  {
    BridgeRendered(l, m, all, n);
    BridgeMembers(l, n);
    MembersOfFabric(l, n, SortedOf(l.Bag(n)));
  }

  /** A bridge's members are the pod interfaces and tunnels of its node. */
  lemma MembersOfFabric(l: Layout, n: string, ms: seq<Member>)
    requires l.Valid() && n in l.nodes && forall x :: x in ms <==> x in l.Bag(n)
    ensures forall x | x in ms :: l.ToFabric().IsMember(n, x)
    ensures forall x | l.ToFabric().PodPort(Port(n, x)) :: exists i | 0 <= i < |ms| :: ms[i].name == x && ms[i].shg == 0
    ensures forall b | (n, b) in l.links ::
              exists i | 0 <= i < |ms| :: ms[i].name == l.name(n, b) && ms[i].shg == l.group
  {
    var f := l.ToFabric();
    forall x | x in ms ensures f.IsMember(n, x) { MemberOfFabric(l, n, x); }
    forall x | f.PodPort(Port(n, x)) ensures exists i | 0 <= i < |ms| :: ms[i].name == x && ms[i].shg == 0 {
      PodMembersAre(l.ports, n, Member(x, false, 0));
      BagMember(l, n, Member(x, false, 0));
      assert Member(x, false, 0) in ms;
    }
    forall b | (n, b) in l.links
      ensures exists i | 0 <= i < |ms| :: ms[i].name == l.name(n, b) && ms[i].shg == l.group
    {
      BagMember(l, n, l.TunnelMember(n, b));
      assert l.TunnelMember(n, b) in ms;
    }
  }

  lemma MemberOfFabric(l: Layout, n: string, x: Member)
    requires l.Valid() && n in l.nodes && x in l.Bag(n)
    ensures l.ToFabric().IsMember(n, x)
  {
    BagMember(l, n, x);
    PodMembersAre(l.ports, n, x);
    if x in l.TunnelMembers(n) {
      var q :| q in l.links && q.0 == n && x == l.TunnelMember(n, q.1);
      assert l.ToFabric().TunnelPort(Port(n, x.name), q.1);
    }
  }

  lemma NoOtherBridgeHas(l: Layout, m: map<Key, KV>, all: seq<seq<KV>>, n: string)
    requires l.Valid() && Among(l, all) && ForeignBridges(m, l)
    ensures NoOtherBridge(LayBlocks(m, all), l.ToFabric(), n)
  {
    var cfg, f := LayBlocks(m, all), l.ToFabric();
    forall name, x | HasBridge(cfg, n, name) && x in BridgeAt(cfg, n, name).members && name != BridgeName(l.conn)
      ensures !f.PodPort(Port(n, x.name)) && !exists to :: f.TunnelPort(Port(n, x.name), to)
    {
      BridgesStayForeign(l, m, all, n, name, x);
      FabricPods(l);
    }
  }

  /** The pod ports of the fabric are the interfaces of the connection. */
  lemma FabricPods(l: Layout)
    requires l.Valid()
    ensures forall p :: l.ToFabric().PodPort(p) <==> p in l.ports
  {}

  /** The overlay's blocks, with others beside them that have no tunnel like its own, build its fabric. */
  lemma RenderingRealizes(l: Layout, m: map<Key, KV>, all: seq<seq<KV>>)
    requires l.Valid() && Among(l, all) && AllUnlike(l, all) && Foreign(m, l) && l.parms.flood
    ensures Realizes(LayBlocks(m, all), l.ToFabric())
  {
    var cfg, f := LayBlocks(m, all), l.ToFabric();
    forall n | n in f.pods ensures BridgeRealizes(cfg, f, n) && NoOtherBridge(cfg, f, n) {
      BridgeRealized(l, m, all, n);
      NoOtherBridgeHas(l, m, all, n);
    }
    FabricPods(l);
    forall p | f.PodPort(p) ensures !IsTunnel(cfg, p) { PortsStayFree(l, m, all, p); }
    forall a, b, q | (a, b) in f.links
      ensures Linked(cfg, Port(a, f.tunnel(a, b)), q) <==> q == Port(b, f.tunnel(b, a))
    {
      LinkedExactly(l, m, all, a, b, q);
    }
  }

  /** The prefix of the names of the bridges that a node is configured with. */
  const NODE_BRIDGE_PREFIX := "L2BD_"

  /**
   * An entry of an interface in a pod or at a node, or of an empty bridge at a node: no cross-connect or tunnel, and
   * under no generated tunnel or bridge name.
   */
  ghost predicate PlainEntry(kv: KV)
  {
    && TypedByKey(kv) && !kv.key.XConnectKey?
    && (kv.key.InterfaceKey? ==> !(TUNNEL_PREFIX <= kv.key.name) && kv.body.iface.tunnel.NoTunnel?)
    && (kv.key.BridgeKey? ==> NODE_BRIDGE_PREFIX <= kv.key.name && kv.body.bridge.members == [])
  }

  ghost predicate Plain(x: seq<KV>) { forall kv | kv in x :: PlainEntry(kv) }

  lemma PlainOwn(x: seq<KV>, k: Key)
    requires Plain(x) && k in Own(x)
    ensures PlainEntry(Own(x)[k]) && Own(x)[k].key == k
  {
    OwnKeys(x, k);
  }

  lemma BridgeNameIsGenerated(c: Conn)
    ensures !(NODE_BRIDGE_PREFIX <= BridgeName(c))
  {
    assert BridgeName(c)[0] == 'B' && NODE_BRIDGE_PREFIX[0] == 'L';
  }

  /** Entries of pods' and nodes' interfaces do not interfere with any overlay. */
  lemma PlainIsBeside(x: seq<KV>, l: Layout)
    requires l.Valid() && Plain(x)
    ensures Beside(x, l) && Unlike(Own(x), l)
  {
    BridgeNameIsGenerated(l.conn);
    forall k | k in Own(x) ensures !KeyOf(l, k) { PlainOwn(x, k); }
    forall p ensures !IsTunnel(Own(x), p) {
      if InterfaceKey(p.node, p.ifName) in Own(x) { PlainOwn(x, InterfaceKey(p.node, p.ifName)); }
    }
    forall n, name | HasBridge(Own(x), n, name) ensures BridgeAt(Own(x), n, name).members == [] {
      PlainOwn(x, BridgeKey(n, name));
    }
  }
}
