/** Several hub-and-spoke connections over one overlay, which all have the overlay's VNI. */
module Hubs {
  import opened Text
  import opened Unsigned
  import opened Entries
  import opened Layers
  import opened Forwarding
  import opened Flooding
  import opened Overlay
  import opened Layouts
  import opened Collecting
  import opened Tunnels
  import opened Coexisting
  import opened HubAndSpoke
  import opened PodInterfaces
  import opened Services
  import opened Entities

  ghost function Spokes(l: Layout, hub: string): set<string> { l.nodes - {hub} }

  /** A hub and spoke of the overlay with the given hub and VNI; its spokes are the nodes of its pod interfaces. */
  ghost predicate HubOf(l: Layout, hub: string, vni: u32)
  {
    && l == HubLayout(l.conn, l.opts, l.specs, l.addr, hub, Spokes(l, hub), l.ports, l.parms)
    && l.conn.vni == vni && l.parms.flood && PortsFit(l.ports, Spokes(l, hub))
    && forall s | s in Spokes(l, hub) :: exists p :: p in l.ports && p.node == s
  }

  lemma Regroup(p: string, s: string, d: string, a: string, x: string, b: string, y: string, v: string)
    ensures p + (s + "_CONN_" + d) + a + x + b + y + v == (p + s + "_CONN_") + (d + (a + x + b + y + v))
  {
    var q := p + s + "_CONN_";
    assert p + (s + "_CONN_" + d) == q + d;
    assert q + d + a == q + (d + a);
    assert q + (d + a) + x == q + (d + (a + x));
    assert q + (d + (a + x)) + b == q + (d + (a + x + b));
    assert q + (d + (a + x + b)) + y == q + (d + (a + x + b + y));
    assert q + (d + (a + x + b + y)) + v == q + (d + (a + x + b + y + v));
  }

  lemma EndNameHasIndex(c: Conn, hub: string, a: string, b: string) returns (rest: string)
    ensures Ends(rest)
    ensures EndName(c, hub, a, b) == (TUNNEL_PREFIX + "NET_SRVC_" + c.service + "_CONN_") + (Decimal(c.index) + rest)
  {
    var p, d, v := TUNNEL_PREFIX + "NET_SRVC_", Decimal(c.index), "_VNI_" + Decimal(c.vni);
    if a == hub {
      Regroup(p, c.service, d, "_FROM_HUB_", a, "_TO_SPOKE_", b, v);
      rest := "_FROM_HUB_" + a + "_TO_SPOKE_" + b + v;
    } else {
      Regroup(p, c.service, d, "_FROM_SPOKE_", a, "_TO_HUB_", b, v);
      rest := "_FROM_SPOKE_" + a + "_TO_HUB_" + b + v;
    }
  }

  /** Connections of one service have different generated names. */
  lemma HubsAlongside(l: Layout, k: Layout, hub: string, vni: u32)
    requires HubOf(l, hub, vni) && HubOf(k, hub, vni)
    requires l.conn.service == k.conn.service && l.conn.index != k.conn.index
    requires forall p | p in l.ports :: p !in k.ports
    ensures Alongside(l, k)
  {
    if BridgeName(l.conn) == BridgeName(k.conn) { BridgeNameInjective(l.conn, k.conn); }
    forall a, b, c | (a, b) in l.links && (a, c) in k.links ensures l.name(a, b) != k.name(a, c) {
      IndexTellsNames(l.conn, k.conn, hub, a, b, c);
    }
  }

  lemma IndexTellsNames(x: Conn, y: Conn, hub: string, a: string, b: string, c: string)
    requires x.service == y.service
    ensures x.index != y.index ==> EndName(x, hub, a, b) != EndName(y, hub, a, c)
  {
    var r := EndNameHasIndex(x, hub, a, b);
    var s := EndNameHasIndex(y, hub, a, c);
    if EndName(x, hub, a, b) == EndName(y, hub, a, c) {
      CommonPrefix(TUNNEL_PREFIX + "NET_SRVC_" + x.service + "_CONN_", Decimal(x.index) + r, Decimal(y.index) + s);
      DecimalPrefixInjective(x.index, y.index, r, s);
    }
  }

  ghost function HubParts(ls: iset<Layout>): iset<Part> { iset l | l in ls :: Bridged(l) }

  /** Connections of the overlay, with the entries of their interfaces, over entries from elsewhere. */
  ghost predicate HubService(m: map<Key, KV>, ls: iset<Layout>, all: seq<seq<KV>>, hub: string, vni: u32)
  {
    && Together(HubParts(ls), all)
    && (forall l | l in ls :: l.Valid() && HubOf(l, hub, vni) && Foreign(m, l))
    && (forall l, k | l in ls && k in ls && l != k :: SameGround(l, k) && Alongside(l, k))
  }

  /** Hub and spokes over the same addresses are apart exactly if they have no spoke in common. */
  lemma ApartExactlyIf(l: Layout, k: Layout, hub: string, vni: u32)
    requires HubOf(l, hub, vni) && HubOf(k, hub, vni) && l.addr == k.addr
    ensures Apart(l, k) <==> Spokes(l, hub) !! Spokes(k, hub)
  {
    if !Apart(l, k) {
      var q :| q in l.links && q in k.links;
      assert (if q.0 == hub then q.1 else q.0) in Spokes(l, hub) * Spokes(k, hub);
    }
    if s :| s in Spokes(l, hub) && s in Spokes(k, hub) {
      assert (hub, s) in l.links && (hub, s) in k.links;
    }
  }

  lemma SeparateIsApart(ls: iset<Layout>, hub: string, vni: u32, l: Layout)
    requires l in ls && forall k | k in ls :: k.Valid() && HubOf(k, hub, vni) && k.addr == l.addr
    requires forall k | k in ls && k != l :: Spokes(l, hub) !! Spokes(k, hub)
    ensures (forall q | q in HubParts(ls) :: PartValid(q)) && ApartFrom(HubParts(ls), Bridged(l))
  {
    forall q, x | q in HubParts(ls) && q != Bridged(l) && IsPartBlock(q, x) ensures PartUnlike(Own(x), Bridged(l)) {
      OtherHubUnlike(l, q.layout, hub, vni, x);
    }
  }

  lemma OtherHubUnlike(l: Layout, k: Layout, hub: string, vni: u32, x: seq<KV>)
    requires l.Valid() && k.Valid() && HubOf(l, hub, vni) && HubOf(k, hub, vni) && l.addr == k.addr && IsBlock(k, x)
    requires Spokes(l, hub) !! Spokes(k, hub)
    ensures Unlike(Own(x), l)
  {
    ApartExactlyIf(l, k, hub, vni);
    LayoutUnlikeLayout(l, k, x);
  }

  lemma SameAddresses(m: map<Key, KV>, ls: iset<Layout>, all: seq<seq<KV>>, hub: string, vni: u32, l: Layout)
    requires HubService(m, ls, all, hub, vni) && l in ls
    ensures forall k | k in ls :: k.Valid() && HubOf(k, hub, vni) && k.addr == l.addr
  {
    forall k | k in ls ensures k.addr == l.addr { assert k == l || SameGround(k, l); }
  }

  lemma SeparateHubRealizes(m: map<Key, KV>, ls: iset<Layout>, all: seq<seq<KV>>, hub: string, vni: u32, l: Layout)
    requires HubService(m, ls, all, hub, vni) && l in ls
    requires forall k | k in ls && k != l :: Spokes(l, hub) !! Spokes(k, hub)
    ensures Realizes(LayBlocks(m, all), l.ToFabric())
  {
    SameAddresses(m, ls, all, hub, vni, l);
    SeparateIsApart(ls, hub, vni, l);
    CoexistingRealize(m, HubParts(ls), all, l);
  }

  /** Connections that share no spoke with any other flood exactly once each. */
  lemma SeparateHubFloodsOnce(m: map<Key, KV>, ls: iset<Layout>, all: seq<seq<KV>>, hub: string, vni: u32, l: Layout,
                              src: Port)
    requires HubService(m, ls, all, hub, vni) && l in ls && src in l.ports
    requires forall k | k in ls && k != l :: Spokes(l, hub) !! Spokes(k, hub)
    ensures FloodsOnce(LayBlocks(m, all), l.ports, src, 3)
  {
    SeparateHubRealizes(m, ls, all, hub, vni, l);
    FabricPods(l);
    HubFabric(l, hub, Spokes(l, hub));
    HubAndSpokeFloodsOnce(LayBlocks(m, all), l.ToFabric(), hub, src);
  }

  lemma SpokeLinks(l: Layout, hub: string, vni: u32, s: string)
    requires HubOf(l, hub, vni) && s in Spokes(l, hub)
    ensures (s, hub) in l.links && (hub, s) in l.links && hub in l.nodes
  {}

  lemma BridgeOfAny(m: map<Key, KV>, ls: iset<Layout>, all: seq<seq<KV>>, hub: string, vni: u32, l: Layout, n: string)
    requires HubService(m, ls, all, hub, vni) && l in ls && n in l.nodes
    ensures BridgeRealizes(LayBlocks(m, all), l.ToFabric(), n) && NoOtherBridge(LayBlocks(m, all), l.ToFabric(), n)
  {
    TogetherAmong(HubParts(ls), all, l);
    BridgeRealized(l, m, all, n);
    NoOtherBridgeHas(l, m, all, n);
  }

  lemma PodIsNoTunnel(m: map<Key, KV>, ls: iset<Layout>, all: seq<seq<KV>>, hub: string, vni: u32, l: Layout, p: Port)
    requires HubService(m, ls, all, hub, vni) && l in ls && p in l.ports
    ensures !IsTunnel(LayBlocks(m, all), p)
  {
    TogetherAmong(HubParts(ls), all, l);
    PortsStayFree(l, m, all, p);
  }

  lemma HopUp(m: map<Key, KV>, ls: iset<Layout>, all: seq<seq<KV>>, hub: string, vni: u32, l: Layout, src: Port)
    returns (h: Hop)
    requires HubService(m, ls, all, hub, vni) && l in ls && src in l.ports
    ensures var cfg := LayBlocks(m, all);
            Copies(cfg, h) && In(cfg, h) == src && Out(cfg, h) == Port(src.node, l.name(src.node, hub))
  {
    var f, n := l.ToFabric(), src.node;
    SpokeLinks(l, hub, vni, n);
    assert f.TunnelPort(Port(n, l.name(n, hub)), hub);
    BridgeOfAny(m, ls, all, hub, vni, l, n);
    FabricPods(l);
    h := MakeHop(LayBlocks(m, all), f, n, src.ifName, l.name(n, hub));
  }

  lemma HopAcross(m: map<Key, KV>, ls: iset<Layout>, all: seq<seq<KV>>, hub: string, vni: u32, l: Layout, n: string,
                  s: string)
    returns (h: Hop)
    requires HubService(m, ls, all, hub, vni) && l in ls && n in Spokes(l, hub) && s in Spokes(l, hub) && s != n
    ensures var cfg := LayBlocks(m, all);
            Copies(cfg, h) && In(cfg, h) == Port(hub, l.name(hub, n)) && Out(cfg, h) == Port(hub, l.name(hub, s))
  {
    var f := l.ToFabric();
    SpokeLinks(l, hub, vni, n);
    SpokeLinks(l, hub, vni, s);
    assert f.TunnelPort(Port(hub, l.name(hub, n)), n) && f.TunnelPort(Port(hub, l.name(hub, s)), s);
    BridgeOfAny(m, ls, all, hub, vni, l, hub);
    h := MakeHop(LayBlocks(m, all), f, hub, l.name(hub, n), l.name(hub, s));
  }

  lemma HopDown(m: map<Key, KV>, ls: iset<Layout>, all: seq<seq<KV>>, hub: string, vni: u32, l: Layout, dst: Port)
    returns (h: Hop)
    requires HubService(m, ls, all, hub, vni) && l in ls && dst in l.ports
    ensures var cfg := LayBlocks(m, all);
            Copies(cfg, h) && In(cfg, h) == Port(dst.node, l.name(dst.node, hub)) && Out(cfg, h) == dst
  {
    var f, n := l.ToFabric(), dst.node;
    SpokeLinks(l, hub, vni, n);
    assert f.TunnelPort(Port(n, l.name(n, hub)), hub);
    BridgeOfAny(m, ls, all, hub, vni, l, n);
    FabricPods(l);
    h := MakeHop(LayBlocks(m, all), f, n, l.name(n, hub), dst.ifName);
  }

  lemma SpokesLinked(m: map<Key, KV>, ls: iset<Layout>, all: seq<seq<KV>>, hub: string, vni: u32, l: Layout, k: Layout,
                     s: string)
    requires HubService(m, ls, all, hub, vni) && l in ls && k in ls && s in Spokes(l, hub) && s in Spokes(k, hub)
    ensures Linked(LayBlocks(m, all), Port(s, l.name(s, hub)), Port(hub, k.name(hub, s)))
    ensures Linked(LayBlocks(m, all), Port(hub, l.name(hub, s)), Port(s, k.name(s, hub)))
  {
    SpokeLinks(l, hub, vni, s);
    SpokeLinks(k, hub, vni, s);
    assert l == k || SameGround(l, k);
    HubsLinked(m, HubParts(ls), all, l, k, hub, s);
  }

  lemma HubsLinked(m: map<Key, KV>, ps: iset<Part>, all: seq<seq<KV>>, l: Layout, k: Layout, hub: string, s: string)
    requires Together(ps, all) && Bridged(l) in ps && Bridged(k) in ps && l.addr == k.addr && l.conn.vni == k.conn.vni
    requires (s, hub) in l.links && (hub, s) in l.links && (s, hub) in k.links && (hub, s) in k.links
    ensures Linked(LayBlocks(m, all), Port(s, l.name(s, hub)), Port(hub, k.name(hub, s)))
    ensures Linked(LayBlocks(m, all), Port(hub, l.name(hub, s)), Port(s, k.name(s, hub)))
  {
    LinkedAcross(m, ps, all, l, k, s, hub, hub, s);
    LinkedAcross(m, ps, all, l, k, hub, s, s, hub);
  }

  /** The way of a frame from l up to the hub's bridge of k, where l and k share the frame's spoke, and on towards n. */
  lemma UpToHub(m: map<Key, KV>, ls: iset<Layout>, all: seq<seq<KV>>, hub: string, vni: u32, l: Layout, k: Layout,
                src: Port, n: string)
    returns (t: seq<Hop>)
    requires HubService(m, ls, all, hub, vni) && l in ls && k in ls && src in l.ports
    requires src.node in Spokes(k, hub) && n in Spokes(k, hub) && n != src.node
    ensures var cfg := LayBlocks(m, all);
            Path(cfg, t) && In(cfg, t[0]) == src && Out(cfg, t[|t| - 1]) == Port(hub, k.name(hub, n))
  {
    var cfg := LayBlocks(m, all);
    var up := HopUp(m, ls, all, hub, vni, l, src);
    var across := HopAcross(m, ls, all, hub, vni, k, src.node, n);
    SpokesLinked(m, ls, all, hub, vni, l, k, src.node);
    TwoHops(cfg, up, across);
    t := [up] + [across];
  }

  /**
   * A spoke in common leaks: frames from the first connection's other spokes reach the second one's interfaces there.
   */
  lemma SharedSpokeLeaks(m: map<Key, KV>, ls: iset<Layout>, all: seq<seq<KV>>, hub: string, vni: u32, l: Layout,
                         k: Layout, src: Port, dst: Port)
    returns (t: seq<Hop>)
    requires HubService(m, ls, all, hub, vni) && l in ls && k in ls
    requires src in l.ports && dst in k.ports && dst.node in Spokes(l, hub) && dst.node != src.node
    ensures Delivers(LayBlocks(m, all), t, src, dst)
  {
    var cfg, s := LayBlocks(m, all), dst.node;
    var up := UpToHub(m, ls, all, hub, vni, l, l, src, s);
    var down := HopDown(m, ls, all, hub, vni, k, dst);
    SpokesLinked(m, ls, all, hub, vni, l, k, s);
    OneMoreHop(cfg, up, down);
    PodIsNoTunnel(m, ls, all, hub, vni, k, dst);
    t := up + [down];
  }

  /** It also leaks the other way: frames from the common spoke reach the second connection's other spokes. */
  lemma SharedSpokeLeaksOut(m: map<Key, KV>, ls: iset<Layout>, all: seq<seq<KV>>, hub: string, vni: u32, l: Layout,
                            k: Layout, src: Port, dst: Port)
    returns (t: seq<Hop>)
    requires HubService(m, ls, all, hub, vni) && l in ls && k in ls
    requires src in l.ports && dst in k.ports && src.node in Spokes(k, hub) && dst.node != src.node
    ensures Delivers(LayBlocks(m, all), t, src, dst)
  {
    var cfg, n := LayBlocks(m, all), dst.node;
    var up := UpToHub(m, ls, all, hub, vni, l, k, src, n);
    var down := HopDown(m, ls, all, hub, vni, k, dst);
    SpokesLinked(m, ls, all, hub, vni, k, k, n);
    OneMoreHop(cfg, up, down);
    PodIsNoTunnel(m, ls, all, hub, vni, k, dst);
    t := up + [down];
  }

  /** Every frame from the connection's pod interfaces stays among them. */
  ghost predicate Isolated(cfg: Config, l: Layout)
  {
    forall src, dst, t | src in l.ports && Delivers(cfg, t, src, dst) :: dst in l.ports
  }

  /** Connections with no spoke in common, or with one and the same spoke and no other. */
  ghost predicate NoLeak(l: Layout, k: Layout, hub: string)
  {
    Spokes(l, hub) !! Spokes(k, hub) || exists s :: Spokes(l, hub) == {s} == Spokes(k, hub)
  }

  lemma SeparateIsIsolated(m: map<Key, KV>, ls: iset<Layout>, all: seq<seq<KV>>, hub: string, vni: u32, l: Layout)
    requires HubService(m, ls, all, hub, vni) && l in ls
    requires forall k | k in ls && k != l :: Spokes(l, hub) !! Spokes(k, hub)
    ensures Isolated(LayBlocks(m, all), l)
  {
    var cfg := LayBlocks(m, all);
    forall src, dst, t | src in l.ports && Delivers(cfg, t, src, dst) ensures dst in l.ports {
      SeparateHubFloodsOnce(m, ls, all, hub, vni, l, src);
    }
  }

  /** The only port of a hub with one spoke is the tunnel to it. */
  lemma OnlyTunnel(l: Layout, hub: string, vni: u32, s: string, p: Port)
    requires HubOf(l, hub, vni) && Spokes(l, hub) == {s} && p.node == hub
    requires l.ToFabric().PodPort(p) || exists to :: l.ToFabric().TunnelPort(p, to)
    ensures p == Port(hub, l.name(hub, s))
  {
    assert l.ToFabric().PodPort(p) ==> p in l.ports;
  }

  lemma SameSpoke(l: Layout, k: Layout, hub: string, s: string)
    requires NoLeak(l, k, hub) && Spokes(l, hub) == {s} && s in Spokes(k, hub)
    ensures Spokes(k, hub) == {s}
  {}

  /** A hop at the hub from the tunnel of a connection with a single spoke does not exist. */
  lemma HubOfOneSpoke(m: map<Key, KV>, ls: iset<Layout>, all: seq<seq<KV>>, hub: string, vni: u32, l: Layout, s: string,
                      h: Hop)
    requires HubService(m, ls, all, hub, vni) && l in ls && Spokes(l, hub) == {s}
    ensures Copies(LayBlocks(m, all), h) ==> In(LayBlocks(m, all), h) != Port(hub, l.name(hub, s))
  {
    var cfg, f := LayBlocks(m, all), l.ToFabric();
    if Copies(cfg, h) && In(cfg, h) == Port(hub, l.name(hub, s)) {
      SpokeLinks(l, hub, vni, s);
      assert f.TunnelPort(Port(hub, l.name(hub, s)), s);
      BridgeOfAny(m, ls, all, hub, vni, l, hub);
      HopInFabric(cfg, f, h);
      OnlyTunnel(l, hub, vni, s, Out(cfg, h));
    }
  }

  /** Where a tunnel of a spoke leads: to the hub's tunnel of some connection with that spoke. */
  lemma LeadsToHub(m: map<Key, KV>, ls: iset<Layout>, all: seq<seq<KV>>, hub: string, vni: u32, l: Layout, s: string,
                   q: Port)
    returns (k: Layout)
    requires HubService(m, ls, all, hub, vni) && l in ls && s in Spokes(l, hub)
    requires Linked(LayBlocks(m, all), Port(s, l.name(s, hub)), q)
    ensures k in ls && s in Spokes(k, hub) && q == Port(hub, k.name(hub, s))
  {
    var cfg := LayBlocks(m, all);
    SpokeLinks(l, hub, vni, s);
    assert Bridged(l) in HubParts(ls);
    TunnelOfAny(m, HubParts(ls), all, l, s, hub);
    assert TunnelAt(cfg, q) == TunnelOf(l, hub, s);
    TunnelFrom(m, all, q);
    var x :| x in all && IsTunnel(Own(x), q) && TunnelAt(cfg, q) == TunnelAt(Own(x), q);
    k := LikeTunnel(m, ls, all, hub, vni, l, s, x, q);
  }

  lemma LikeTunnel(m: map<Key, KV>, ls: iset<Layout>, all: seq<seq<KV>>, hub: string, vni: u32, l: Layout, s: string,
                   x: seq<KV>, q: Port)
    returns (k: Layout)
    requires HubService(m, ls, all, hub, vni) && l in ls && s in Spokes(l, hub) && x in all
    requires (hub, s) in l.links && IsTunnel(Own(x), q) && TunnelAt(Own(x), q) == TunnelOf(l, hub, s)
    ensures k in ls && s in Spokes(k, hub) && q == Port(hub, k.name(hub, s))
  {
    var ps := HubParts(ls);
    assert Bridged(l) in ps && !PartUnlike(Own(x), Bridged(l));
    assert !Harmless(x, ps);
    var p :| p in ps && IsPartBlock(p, x);
    k := p.layout;
    assert l == k || SameGround(l, k);
    LikeBlock(k, l, hub, s, x, q);
  }

  lemma LikeBlock(k: Layout, l: Layout, hub: string, s: string, x: seq<KV>, q: Port)
    requires k.Valid() && l.Valid() && l.addr == k.addr && IsBlock(k, x) && (hub, s) in l.links
    requires IsTunnel(Own(x), q) && TunnelAt(Own(x), q) == TunnelOf(l, hub, s)
    ensures (hub, s) in k.links && q == Port(hub, k.name(hub, s))
  {
    BlockTunnel(k, x, q);
    var b :| (q.node, b) in k.links && q.ifName == k.name(q.node, b) && TunnelAt(Own(x), q) == TunnelOf(k, q.node, b);
    assert (q.node, b) == (hub, s);
  }

  lemma OneSpokeFirstHop(m: map<Key, KV>, ls: iset<Layout>, all: seq<seq<KV>>, hub: string, vni: u32, l: Layout,
                         s: string, h: Hop)
    requires HubService(m, ls, all, hub, vni) && l in ls && Spokes(l, hub) == {s}
    requires Copies(LayBlocks(m, all), h) && In(LayBlocks(m, all), h) in l.ports
    ensures var p := Out(LayBlocks(m, all), h); p in l.ports || p == Port(s, l.name(s, hub))
  {
    FabricPods(l);
    BridgeOfAny(m, ls, all, hub, vni, l, s);
    HopInFabric(LayBlocks(m, all), l.ToFabric(), h);
  }

  lemma OneSpokeStops(m: map<Key, KV>, ls: iset<Layout>, all: seq<seq<KV>>, hub: string, vni: u32, l: Layout, s: string,
                      h: Hop)
    requires HubService(m, ls, all, hub, vni) && l in ls && Spokes(l, hub) == {s}
    requires forall k | k in ls && k != l :: NoLeak(l, k, hub)
    ensures var cfg := LayBlocks(m, all); Copies(cfg, h) ==> !Linked(cfg, Port(s, l.name(s, hub)), In(cfg, h))
  {
    var cfg := LayBlocks(m, all);
    if Copies(cfg, h) && Linked(cfg, Port(s, l.name(s, hub)), In(cfg, h)) {
      var k := LeadsToHub(m, ls, all, hub, vni, l, s, In(cfg, h));
      if k != l { SameSpoke(l, k, hub, s); }
      HubOfOneSpoke(m, ls, all, hub, vni, k, s, h);
    }
  }

  lemma FirstLink(cfg: Config, t: seq<Hop>)
    requires Path(cfg, t) && |t| >= 2
    ensures Linked(cfg, Out(cfg, t[0]), In(cfg, t[1]))
  {}

  lemma NoSecondHop(m: map<Key, KV>, ls: iset<Layout>, all: seq<seq<KV>>, hub: string, vni: u32, l: Layout, s: string,
                    p: Port, h: Hop)
    requires HubService(m, ls, all, hub, vni) && l in ls && Spokes(l, hub) == {s}
    requires forall k | k in ls && k != l :: NoLeak(l, k, hub)
    requires p in l.ports || p == Port(s, l.name(s, hub))
    ensures var cfg := LayBlocks(m, all); Copies(cfg, h) ==> !Linked(cfg, p, In(cfg, h))
  {
    if p in l.ports {
      PodIsNoTunnel(m, ls, all, hub, vni, l, p);
    } else {
      OneSpokeStops(m, ls, all, hub, vni, l, s, h);
    }
  }

  lemma OneSpokePath(m: map<Key, KV>, ls: iset<Layout>, all: seq<seq<KV>>, hub: string, vni: u32, l: Layout, s: string,
                     t: seq<Hop>)
    requires HubService(m, ls, all, hub, vni) && l in ls && Spokes(l, hub) == {s}
    requires forall k | k in ls && k != l :: NoLeak(l, k, hub)
    requires Path(LayBlocks(m, all), t) && In(LayBlocks(m, all), t[0]) in l.ports
    ensures |t| == 1
  {
    var cfg := LayBlocks(m, all);
    OneSpokeFirstHop(m, ls, all, hub, vni, l, s, t[0]);
    if |t| >= 2 {
      FirstLink(cfg, t);
      NoSecondHop(m, ls, all, hub, vni, l, s, Out(cfg, t[0]), t[1]);
    }
  }

  /** With one and the same spoke only, frames do not get past the hub. */
  lemma OneSpokeIsIsolated(m: map<Key, KV>, ls: iset<Layout>, all: seq<seq<KV>>, hub: string, vni: u32, l: Layout,
                           s: string)
    requires HubService(m, ls, all, hub, vni) && l in ls && Spokes(l, hub) == {s}
    requires forall k | k in ls && k != l :: NoLeak(l, k, hub)
    ensures Isolated(LayBlocks(m, all), l)
  {
    var cfg := LayBlocks(m, all);
    SpokeLinks(l, hub, vni, s);
    assert Bridged(l) in HubParts(ls);
    TunnelOfAny(m, HubParts(ls), all, l, s, hub);
    forall src, dst, t | src in l.ports && Delivers(cfg, t, src, dst) ensures dst in l.ports {
      OneSpokeFirstHop(m, ls, all, hub, vni, l, s, t[0]);
      OneSpokePath(m, ls, all, hub, vni, l, s, t);
    }
  }

  lemma SharedIsNotIsolated(m: map<Key, KV>, ls: iset<Layout>, all: seq<seq<KV>>, hub: string, vni: u32, l: Layout,
                            k: Layout)
    requires HubService(m, ls, all, hub, vni) && l in ls && k in ls && k != l && !NoLeak(l, k, hub)
    ensures !Isolated(LayBlocks(m, all), l)
  {
    var s :| s in Spokes(l, hub) && s in Spokes(k, hub);
    assert Alongside(k, l);
    if Spokes(l, hub) != {s} {
      var n :| n in Spokes(l, hub) && n != s;
      var src := PortAtSpoke(l, hub, vni, n);
      var dst := PortAtSpoke(k, hub, vni, s);
      var t := SharedSpokeLeaks(m, ls, all, hub, vni, l, k, src, dst);
    } else {
      var n := OtherSpoke(l, k, hub, s);
      var src := PortAtSpoke(l, hub, vni, s);
      var dst := PortAtSpoke(k, hub, vni, n);
      var t := SharedSpokeLeaksOut(m, ls, all, hub, vni, l, k, src, dst);
    }
  }

  lemma PortAtSpoke(l: Layout, hub: string, vni: u32, s: string) returns (p: Port)
    requires HubOf(l, hub, vni) && s in Spokes(l, hub)
    ensures p in l.ports && p.node == s
  {
    p :| p in l.ports && p.node == s;
  }

  lemma OtherSpoke(l: Layout, k: Layout, hub: string, s: string) returns (n: string)
    requires !NoLeak(l, k, hub) && Spokes(l, hub) == {s} && s in Spokes(k, hub)
    ensures n in Spokes(k, hub) && n != s
  {
    n :| n in Spokes(k, hub) && n != s;
  }

  /**
   * A connection keeps its frames to itself exactly if with every other connection it has no spoke in common, or both
   * have just one and the same spoke.
   */
  lemma IsolatedExactlyIf(m: map<Key, KV>, ls: iset<Layout>, all: seq<seq<KV>>, hub: string, vni: u32, l: Layout)
    requires HubService(m, ls, all, hub, vni) && l in ls
    ensures Isolated(LayBlocks(m, all), l) <==> forall k | k in ls && k != l :: NoLeak(l, k, hub)
  {
    if k :| k in ls && k != l && !NoLeak(l, k, hub) {
      SharedIsNotIsolated(m, ls, all, hub, vni, l, k);
    } else if s :| Spokes(l, hub) == {s} {
      OneSpokeIsIsolated(m, ls, all, hub, vni, l, s);
    } else {
      SeparateIsIsolated(m, ls, all, hub, vni, l);
    }
  }

  /** The connections of services over a hub and spoke. */
  ghost function HubLayouts(runs: seq<Run>, addr: map<string, string>): iset<Layout>
    requires forall s | 0 <= s < |runs| :: HubRun(runs[s])
  {
    iset s, i | Within(runs, s, i) :: HubLayoutAt(runs[s], addr, i)
  }

  ghost function HubLayoutAt(run: Run, addr: map<string, string>, i: nat): Layout
    requires HubRun(run) && i < |run.conns|
  {
    PartOf(run.sh, i, run.used[i], addr, run.conns[i]).layout
  }

  /** A service of L2MP connections over a hub and spoke, whose interfaces are used once, and whose bridges flood. */
  ghost predicate HubRun(run: Run)
  {
    && run.sh.kind.HubOverlay? && |run.used| == |run.conns|
    && (forall i | 0 <= i < |run.conns| ::
          run.conns[i].L2MP? && run.conns[i].parms.flood && run.used[i] == run.sh.kind.vni)
    && (forall i | 0 <= i < |run.conns| :: ConnectionFits(run.sh, run.conns[i]))
    && forall i, j | 0 <= i < |run.conns| && 0 <= j < |run.conns| && i != j ::
         PortsDiffer(run.conns[i], run.conns[j])
  }

  /** Generated names of two services over one hub and spoke differ at every node. */
  ghost predicate NamesTell(r: Run, q: Run)
    requires HubRun(r) && HubRun(q)
  {
    forall i, j, a, b, c | 0 <= i < |r.conns| && 0 <= j < |q.conns| &&
      (a, b) in HubPairs(r.sh.kind.hub, NodesOf(r.conns[i].pods)) &&
      (a, c) in HubPairs(r.sh.kind.hub, NodesOf(q.conns[j].pods)) ::
      NamesDifferAt(r, i, q, j, a, b, c)
  }

  ghost predicate NamesDifferAt(r: Run, i: nat, q: Run, j: nat, a: string, b: string, c: string)
    requires r.sh.kind.HubOverlay?
  {
    var hub, vni := r.sh.kind.hub, r.sh.kind.vni;
    EndName(Conn(r.sh.service, i + 1, vni), hub, a, b) != EndName(Conn(q.sh.service, j + 1, vni), hub, a, c)
  }

  /** Services of different names over one hub and spoke. */
  ghost predicate HubRuns(runs: seq<Run>, hub: string, vni: u32)
  {
    && (forall s | 0 <= s < |runs| :: HubRun(runs[s]) && runs[s].sh.kind == HubOverlay(hub, vni))
    && forall s, t | 0 <= s < |runs| && 0 <= t < |runs| && s != t ::
         && runs[s].sh.service != runs[t].sh.service
         && runs[s].sh.opts == runs[t].sh.opts && runs[s].sh.specs == runs[t].sh.specs
         && NamesTell(runs[s], runs[t])
         && forall i, j | 0 <= i < |runs[s].conns| && 0 <= j < |runs[t].conns| ::
              PortsDiffer(runs[s].conns[i], runs[t].conns[j])
  }

  lemma OneRun(run: Run)
    requires HubRun(run)
    ensures HubRuns([run], run.sh.kind.hub, run.sh.kind.vni)
  {}

  lemma LabelInjective(x: Conn, y: Conn)
    requires Label(x) == Label(y)
    ensures x.service == y.service && x.index == y.index
  {
    assert Label(x) == (x.service + "_CONN") + ['_'] + Decimal(x.index);
    assert Label(y) == (y.service + "_CONN") + ['_'] + Decimal(y.index);
    DecimalSuffixInjective(x.service + "_CONN", y.service + "_CONN", '_', x.index, y.index);
    CommonSuffix(x.service, y.service, "_CONN");
  }

  lemma HubNamesTell(x: Conn, y: Conn, hub: string, b: string, c: string)
    requires x.vni == y.vni && '_' !in b && '_' !in c && HubName(x, hub, b) == HubName(y, hub, c)
    ensures x.service == y.service
  {
    var p, f, v := TUNNEL_PREFIX + "NET_SRVC_", "_FROM_HUB_" + hub + "_TO_SPOKE", "_VNI_" + Decimal(x.vni);
    HubNameEnds(x, hub, b);
    HubNameEnds(y, hub, c);
    CommonSuffix((p + Label(x) + f) + ['_'] + b, (p + Label(y) + f) + ['_'] + c, v);
    LastSplit(p + Label(x) + f, p + Label(y) + f, b, c, '_');
    CommonSuffix(p + Label(x), p + Label(y), f);
    CommonPrefix(p, Label(x), Label(y));
    LabelInjective(x, y);
  }

  lemma HubNameEnds(x: Conn, hub: string, b: string)
    ensures HubName(x, hub, b)
         == (TUNNEL_PREFIX + "NET_SRVC_" + Label(x) + ("_FROM_HUB_" + hub + "_TO_SPOKE")) + ['_'] + b
            + ("_VNI_" + Decimal(x.vni))
  {
    var p := TUNNEL_PREFIX + "NET_SRVC_" + Label(x);
    assert p + "_FROM_HUB_" + hub + "_TO_SPOKE_" == p + ("_FROM_HUB_" + hub + "_TO_SPOKE") + ['_'];
  }

  lemma SpokeNamesTell(x: Conn, y: Conn, hub: string, a: string)
    requires x.vni == y.vni && SpokeName(x, a, hub) == SpokeName(y, a, hub)
    ensures x.service == y.service
  {
    var p, f := TUNNEL_PREFIX + "NET_SRVC_", "_FROM_SPOKE_" + a + "_TO_HUB_" + hub + ("_VNI_" + Decimal(x.vni));
    assert SpokeName(x, a, hub) == p + Label(x) + f;
    assert SpokeName(y, a, hub) == p + Label(y) + f;
    CommonSuffix(p + Label(x), p + Label(y), f);
    CommonPrefix(p, Label(x), Label(y));
    LabelInjective(x, y);
  }

  ghost predicate NoUnderscores(nodes: set<string>) { forall n | n in nodes :: '_' !in n }

  /** Where nodes have no underscore in their names, as host names have none, services have different names. */
  lemma HostNamesTell(r: Run, q: Run)
    requires HubRun(r) && HubRun(q) && r.sh.service != q.sh.service
    requires forall i | 0 <= i < |r.conns| :: NoUnderscores(NodesOf(r.conns[i].pods))
    requires forall i | 0 <= i < |q.conns| :: NoUnderscores(NodesOf(q.conns[i].pods))
    ensures NamesTell(r, q)
  {
    var hub, vni := r.sh.kind.hub, r.sh.kind.vni;
    forall i, j, a, b, c | 0 <= i < |r.conns| && 0 <= j < |q.conns| &&
      (a, b) in HubPairs(hub, NodesOf(r.conns[i].pods)) && (a, c) in HubPairs(hub, NodesOf(q.conns[j].pods))
      ensures NamesDifferAt(r, i, q, j, a, b, c)
    {
      var x, y := Conn(r.sh.service, i + 1, vni), Conn(q.sh.service, j + 1, vni);
      if EndName(x, hub, a, b) == EndName(y, hub, a, c) {
        if a == hub {
          assert b == hub || b in NodesOf(r.conns[i].pods);
          assert c == hub || c in NodesOf(q.conns[j].pods);
          HubNamesTell(x, y, hub, b, c);
        } else {
          assert b == hub && c == hub;
          SpokeNamesTell(x, y, hub, a);
        }
      }
    }
  }

  /** What stands between the service and the spoke in the name of a tunnel at the hub. */
  function Middle(index: nat, hub: string): string
  {
    "_CONN_" + Decimal(index) + "_FROM_HUB_" + hub + "_TO_SPOKE_"
  }

  lemma HubNameIs(c: Conn, hub: string, b: string)
    ensures HubName(c, hub, b)
         == TUNNEL_PREFIX + "NET_SRVC_" + (c.service + Middle(c.index, hub) + b) + ("_VNI_" + Decimal(c.vni))
  {
    var p, x, d := TUNNEL_PREFIX + "NET_SRVC_", c.service + "_CONN_", Decimal(c.index);
    var f := "_FROM_HUB_" + hub + "_TO_SPOKE_";
    assert c.service + Middle(c.index, hub) + b == x + d + f + b;
    assert p + (x + d) + "_FROM_HUB_" + hub + "_TO_SPOKE_" == p + (x + d) + f;
    assert p + (x + d + f + b) == p + (x + d) + f + b;
  }

  /**
   * In general they need not: two services of different names and one name of a tunnel at the hub, for spokes with
   * underscores in their names.
   */
  lemma NamesCollide(vni: u32, hub: string, x: string, q: string, c: string)
    ensures var mid := Middle(1, hub);
            && x != x + mid + q
            && EndName(Conn(x, 1, vni), hub, hub, q + mid + c) == EndName(Conn(x + mid + q, 1, vni), hub, hub, c)
  {
    var mid := Middle(1, hub);
    HubNameIs(Conn(x, 1, vni), hub, q + mid + c);
    HubNameIs(Conn(x + mid + q, 1, vni), hub, c);
    assert x + mid + (q + mid + c) == x + mid + q + mid + c;
    assert |x + mid + q| > |x|;
  }

  lemma HubLayoutIs(run: Run, addr: map<string, string>, i: nat)
    requires HubRun(run) && i < |run.conns| && HubLayoutAt(run, addr, i).Valid()
    ensures HubOf(HubLayoutAt(run, addr, i), run.sh.kind.hub, run.sh.kind.vni)
  {
    var l, hub, pods := HubLayoutAt(run, addr, i), run.sh.kind.hub, run.conns[i].pods;
    PortsOfFit(run.sh, run.conns[i]);
    assert hub in NodesOf(pods) ==> (hub, hub) in l.links;
    assert Spokes(l, hub) == NodesOf(pods);
    forall s | s in NodesOf(pods) ensures exists p :: p in l.ports && p.node == s {
      var k :| 0 <= k < |pods| && pods[k].node == s;
      assert PortsOf(pods)[k] in l.ports;
    }
  }

  lemma PortIsOf(pods: seq<PodIf>, p: Port)
    ensures p in PortsOf(pods) ==> exists q :: q in pods && p == q.AsPort()
  {
    if p in PortsOf(pods) {
      var k :| 0 <= k < |pods| && p == PortsOf(pods)[k];
      assert pods[k] in pods;
    }
  }

  lemma PortsAreApart(c: Connection, d: Connection, p: Port)
    requires c.L2MP? && d.L2MP? && PortsDiffer(c, d) && p in PortsOf(c.pods)
    ensures p !in PortsOf(d.pods)
  {
    PortIsOf(c.pods, p);
    PortIsOf(d.pods, p);
  }

  /** Connections of one service lie alongside each other. */
  lemma SameServiceAlongside(run: Run, addr: map<string, string>, i: nat, j: nat)
    requires HubRun(run) && i < |run.conns| && j < |run.conns| && i != j
    requires HubLayoutAt(run, addr, i).Valid() && HubLayoutAt(run, addr, j).Valid()
    ensures Alongside(HubLayoutAt(run, addr, i), HubLayoutAt(run, addr, j))
  {
    var l, k := HubLayoutAt(run, addr, i), HubLayoutAt(run, addr, j);
    HubLayoutIs(run, addr, i);
    HubLayoutIs(run, addr, j);
    forall p | p in l.ports ensures p !in k.ports { PortsAreApart(run.conns[i], run.conns[j], p); }
    HubsAlongside(l, k, run.sh.kind.hub, run.sh.kind.vni);
  }

  /** Connections of different services do if their names tell them apart. */
  lemma ServicesAlongside(r: Run, q: Run, addr: map<string, string>, i: nat, j: nat)
    requires HubRun(r) && HubRun(q) && i < |r.conns| && j < |q.conns| && r.sh.kind == q.sh.kind
    requires r.sh.service != q.sh.service && NamesTell(r, q) && PortsDiffer(r.conns[i], q.conns[j])
    ensures Alongside(HubLayoutAt(r, addr, i), HubLayoutAt(q, addr, j))
  {
    var l, k := HubLayoutAt(r, addr, i), HubLayoutAt(q, addr, j);
    if BridgeName(l.conn) == BridgeName(k.conn) { BridgeNameInjective(l.conn, k.conn); }
    forall p | p in l.ports ensures p !in k.ports { PortsAreApart(r.conns[i], q.conns[j], p); }
    forall a, b, c | (a, b) in l.links && (a, c) in k.links ensures l.name(a, b) != k.name(a, c) {
      assert NamesDifferAt(r, i, q, j, a, b, c);
    }
  }

  lemma HubLayoutsAlongside(runs: seq<Run>, addr: map<string, string>, hub: string, vni: u32, s: nat, i: nat, t: nat,
                            j: nat)
    requires HubRuns(runs, hub, vni) && Within(runs, s, i) && Within(runs, t, j) && (s, i) != (t, j)
    requires HubLayoutAt(runs[s], addr, i).Valid() && HubLayoutAt(runs[t], addr, j).Valid()
    ensures SameGround(HubLayoutAt(runs[s], addr, i), HubLayoutAt(runs[t], addr, j))
    ensures Alongside(HubLayoutAt(runs[s], addr, i), HubLayoutAt(runs[t], addr, j))
  {
    if s == t {
      SameServiceAlongside(runs[s], addr, i, j);
    } else {
      ServicesAlongside(runs[s], runs[t], addr, i, j);
    }
  }

  lemma HubPartAt(runs: seq<Run>, addr: map<string, string>, hub: string, vni: u32, s: nat, i: nat)
    requires HubRuns(runs, hub, vni) && RunsDone(runs, addr) && Within(runs, s, i)
    ensures PartAt(runs, addr, s, i) == Bridged(HubLayoutAt(runs[s], addr, i))
    ensures HubLayoutAt(runs[s], addr, i).Valid() && HubOf(HubLayoutAt(runs[s], addr, i), hub, vni)
  {
    assert PartValid(PartOf(runs[s].sh, i, runs[s].used[i], addr, runs[s].conns[i]));
    HubLayoutIs(runs[s], addr, i);
  }

  lemma HubLayoutFrom(runs: seq<Run>, addr: map<string, string>, hub: string, vni: u32, l: Layout)
    returns (s: nat, i: nat)
    requires HubRuns(runs, hub, vni) && RunsDone(runs, addr) && l in HubLayouts(runs, addr)
    ensures Within(runs, s, i) && l == HubLayoutAt(runs[s], addr, i) && l.Valid() && HubOf(l, hub, vni)
  {
    s, i :| Within(runs, s, i) && l == HubLayoutAt(runs[s], addr, i);
    HubPartAt(runs, addr, hub, vni, s, i);
  }

  lemma SameParts(runs: seq<Run>, addr: map<string, string>, hub: string, vni: u32)
    requires HubRuns(runs, hub, vni) && RunsDone(runs, addr)
    ensures HubParts(HubLayouts(runs, addr)) == PartsOf(runs, addr)
  {
    forall p ensures p in HubParts(HubLayouts(runs, addr)) <==> p in PartsOf(runs, addr) {
      if p in HubParts(HubLayouts(runs, addr)) {
        var s, i := HubLayoutFrom(runs, addr, hub, vni, p.layout);
        HubPartAt(runs, addr, hub, vni, s, i);
      }
      if p in PartsOf(runs, addr) {
        var s, i :| Within(runs, s, i) && p == PartAt(runs, addr, s, i);
        HubPartAt(runs, addr, hub, vni, s, i);
        assert p.layout in HubLayouts(runs, addr);
      }
    }
  }

  lemma HubsAlongsideEachOther(runs: seq<Run>, addr: map<string, string>, hub: string, vni: u32, l: Layout, k: Layout)
    requires HubRuns(runs, hub, vni) && RunsDone(runs, addr)
    requires l in HubLayouts(runs, addr) && k in HubLayouts(runs, addr) && l != k
    ensures SameGround(l, k) && Alongside(l, k)
  {
    var s, i := HubLayoutFrom(runs, addr, hub, vni, l);
    var t, j := HubLayoutFrom(runs, addr, hub, vni, k);
    HubLayoutsAlongside(runs, addr, hub, vni, s, i, t, j);
  }

  lemma HubsTogether(runs: seq<Run>, addr: map<string, string>, all: seq<seq<KV>>, hub: string, vni: u32)
    requires HubRuns(runs, hub, vni) && RunsDone(runs, addr) && RunsBlocks(runs, addr, all) && NamesPlain(runs)
    ensures Together(HubParts(HubLayouts(runs, addr)), all)
  {
    var ps := PartsOf(runs, addr);
    SameParts(runs, addr, hub, vni);
    RunPartsValid(runs, addr);
    forall p, q, x | p in ps && q in ps && p != q && IsPartBlock(q, x) ensures PartBeside(x, p) {
      HubsAlongsideEachOther(runs, addr, hub, vni, p.layout, q.layout);
      LayoutBesideLayout(p.layout, q.layout, x);
    }
    forall p, x | p in ps && IsPartBlock(p, x) ensures x in all { PartInAll(runs, addr, all, p, x); }
    forall x | x in all ensures (exists p :: p in ps && IsPartBlock(p, x)) || Harmless(x, ps) {
      BlockOfPart(runs, addr, all, x);
    }
  }

  lemma HubNamesPlain(runs: seq<Run>, hub: string, vni: u32)
    requires HubRuns(runs, hub, vni)
    ensures NamesPlain(runs)
  {
    forall s, i | Within(runs, s, i) ensures forall p | p in runs[s].conns[i].Pods() :: !(TUNNEL_PREFIX <= p.name) {
      assert ConnectionFits(runs[s].sh, runs[s].conns[i]);
    }
  }

  /** What RenderServices renders over a hub and spoke is such a set of connections. */
  lemma HubServiceIsDone(m: map<Key, KV>, runs: seq<Run>, addr: map<string, string>, all: seq<seq<KV>>, hub: string,
                         vni: u32)
    requires HubRuns(runs, hub, vni) && RunsDone(runs, addr) && RunsBlocks(runs, addr, all)
    requires forall l | l in HubLayouts(runs, addr) :: l.Valid() ==> Foreign(m, l)
    ensures HubService(m, HubLayouts(runs, addr), all, hub, vni)
  {
    var ls := HubLayouts(runs, addr);
    HubNamesPlain(runs, hub, vni);
    HubsTogether(runs, addr, all, hub, vni);
    forall l | l in ls ensures l.Valid() && HubOf(l, hub, vni) {
      var s, i := HubLayoutFrom(runs, addr, hub, vni, l);
    }
    forall l, k | l in ls && k in ls && l != k ensures SameGround(l, k) && Alongside(l, k) {
      HubsAlongsideEachOther(runs, addr, hub, vni, l, k);
    }
  }

  /** The connections of a service over a hub and spoke, rendered by RenderService. */
  method RenderHubService(book: AddressBook, sh: Shared, conns: seq<Connection>)
    returns (steps: seq<Step>, ok: bool)
    requires book.Valid() && (book.usePool || DistinctAddresses(book.fixed)) && sh.kind.HubOverlay?
    requires HubRun(Run(sh, seq(|conns|, _ => sh.kind.vni), conns))
    modifies book, book.pool
    ensures book.Valid() && Spent(old(book.Balance()), book.Balance(), EndsTo(sh, conns, |conns|))
    ensures ok <==> AllRenderable(sh, conns, |conns|) && Enough(old(book.Balance()), EndsTo(sh, conns, |conns|))
    ensures ok ==> forall s | s in steps :: !s.Fail?
    ensures ok ==> var run := Run(sh, seq(|conns|, _ => sh.kind.vni), conns);
              HubService(map[], HubLayouts([run], book.Assigned()), Blocks(steps), sh.kind.hub, sh.kind.vni)
    ensures !ok ==> Messages(steps) != []
  {
    var used;
    steps, used, ok := RenderService(book, null, sh, conns);
    if ok {
      assert used == seq(|conns|, _ => sh.kind.vni);
      HubServiceRendered(Run(sh, used, conns), book.Assigned(), steps);
    }
  }

  lemma HubServiceRendered(run: Run, addr: map<string, string>, steps: seq<Step>)
    requires HubRun(run) && ServiceDone(run.sh, run.used, addr, run.conns, steps)
    ensures HubService(map[], HubLayouts([run], addr), Blocks(steps), run.sh.kind.hub, run.sh.kind.vni)
  {
    OneRun(run);
    assert RunsDone([run], addr);
    assert forall x :: x in Blocks(steps) <==> InService([run][0].sh, [run][0].used, addr, [run][0].conns, x);
    assert RunsBlocks([run], addr, Blocks(steps));
    HubServiceIsDone(map[], [run], addr, Blocks(steps), run.sh.kind.hub, run.sh.kind.vni);
  }
}
