/** The L2MP renderer of networknodeoverlay_vxlanhubandspoke.go: tunnels between a hub and its spokes. */
module HubAndSpoke {
  import opened Text
  import opened Entries
  import opened SortedMembers
  import opened Entities
  import opened Layers
  import opened Forwarding
  import opened Flooding
  import opened Overlay
  import opened Layouts
  import opened Collecting
  import opened Tunnels

  /** Both tunnels between the hub and each spoke. */
  ghost function HubPairs(hub: string, spokes: set<string>): set<(string, string)>
  {
    (set s | s in spokes :: (hub, s)) + (set s | s in spokes :: (s, hub))
  }

  ghost function BothEnds(hub: string, s: string): set<(string, string)> { {(hub, s), (s, hub)} }

  lemma BothEndsSplit(hub: string, s: string, done: set<(string, string)>)
    ensures done + {(hub, s)} + {(s, hub)} == done + BothEnds(hub, s)
  {}

  /** The name of the tunnel from one end to the other. */
  function EndName(conn: Conn, hub: string, a: string, b: string): string
  {
    if a == hub then HubName(conn, a, b) else SpokeName(conn, a, b)
  }

  ghost function HubLayout(conn: Conn, opts: Options, specs: NodeSpecs, addr: map<string, string>, hub: string,
                           spokes: set<string>, ports: seq<Port>, parms: BDParms): Layout
  {
    Layout(conn, (a, b) => EndName(conn, hub, a, b), opts, specs, addr, spokes + {hub}, HubPairs(hub, spokes), ports,
           parms, 0)
  }

  lemma HubNameInjective(c: Conn, hub: string, s: string, s': string)
    requires HubName(c, hub, s) == HubName(c, hub, s')
    ensures s == s'
  {
    var pre := TUNNEL_PREFIX + "NET_SRVC_" + Label(c) + "_FROM_HUB_" + hub + "_TO_SPOKE_";
    CommonSuffix(pre + s, pre + s', "_VNI_" + Decimal(c.vni));
    CommonPrefix(pre, s, s');
  }

  lemma EndNamePrefix(c: Conn, hub: string, a: string, b: string)
    ensures TUNNEL_PREFIX <= EndName(c, hub, a, b) && EndName(c, hub, a, b) != LoopbackName(a)
  {
    assert EndName(c, hub, a, b)[9] == 'N';
    assert LoopbackName(a)[9] == 'L';
  }

  lemma HubNamesDiffer(l: Layout, hub: string, spokes: set<string>)
    requires l == HubLayout(l.conn, l.opts, l.specs, l.addr, hub, spokes, l.ports, l.parms)
    ensures NamesDiffer(l)
  {
    forall a, b, c | (a, b) in l.links && (a, c) in l.links && l.name(a, b) == l.name(a, c) ensures b == c {
      if a == hub { HubNameInjective(l.conn, hub, b, c); }
    }
  }

  lemma HubLayoutIsValid(l: Layout, hub: string, spokes: set<string>)
    requires l == HubLayout(l.conn, l.opts, l.specs, l.addr, hub, spokes, l.ports, l.parms) && hub !in spokes
    requires (forall a, b | (a, b) in l.links :: a in l.addr) && l.nodes <= l.specs.Keys
    requires DistinctAddresses(l.addr) && PortsFit(l.ports, spokes)
    ensures l.Valid()
  {
    HubNamesDiffer(l, hub, spokes);
    forall a, b | (a, b) in l.links ensures TUNNEL_PREFIX <= l.name(a, b) && l.name(a, b) != LoopbackName(a) {
      EndNamePrefix(l.conn, hub, a, b);
    }
  }

  /** The members of the bridge at the hub or at a spoke: its pod interfaces and its tunnels, all in group 0. */
  lemma HubBridgeHas(conn: Conn, opts: Options, specs: NodeSpecs, addr: map<string, string>, hub: string,
                     spokes: set<string>, ports: seq<Port>, parms: BDParms, n: string, m: Member)
    requires HubLayout(conn, opts, specs, addr, hub, spokes, ports, parms).Valid() && hub !in spokes
    requires n in spokes + {hub}
    ensures m in SortedOf(HubLayout(conn, opts, specs, addr, hub, spokes, ports, parms).Bag(n)) <==>
              || (Port(n, m.name) in ports && !m.bvi && m.shg == 0)
              || (n in spokes && m == Member(SpokeName(conn, n, hub), false, 0))
              || (n == hub && exists s :: s in spokes && m == Member(HubName(conn, hub, s), false, 0))
  {
    var l := HubLayout(conn, opts, specs, addr, hub, spokes, ports, parms);
    BridgeHas(l, n, m);
    if n == hub { TunnelsOfHub(l, hub, spokes, m); } else { TunnelOfSpoke(l, hub, spokes, n, m); }
  }

  lemma TunnelsOfHub(l: Layout, hub: string, spokes: set<string>, m: Member)
    requires l == HubLayout(l.conn, l.opts, l.specs, l.addr, hub, spokes, l.ports, l.parms) && hub !in spokes
    ensures m in l.TunnelMembers(hub) <==> exists s :: s in spokes && m == Member(HubName(l.conn, hub, s), false, 0)
  {
    if s :| s in spokes && m == Member(HubName(l.conn, hub, s), false, 0) {
      assert (hub, s) in l.links && m == l.TunnelMember(hub, s);
    }
    if m in l.TunnelMembers(hub) {
      var q :| q in l.links && q.0 == hub && m == l.TunnelMember(hub, q.1);
      assert q.1 in spokes;
    }
  }

  lemma TunnelOfSpoke(l: Layout, hub: string, spokes: set<string>, s: string, m: Member)
    requires l == HubLayout(l.conn, l.opts, l.specs, l.addr, hub, spokes, l.ports, l.parms) && hub !in spokes
    requires s in spokes
    ensures m in l.TunnelMembers(s) <==> m == Member(SpokeName(l.conn, s, hub), false, 0)
  {
    assert (s, hub) in l.links && l.TunnelMember(s, hub) == Member(SpokeName(l.conn, s, hub), false, 0);
    if m in l.TunnelMembers(s) {
      var q :| q in l.links && q.0 == s && m == l.TunnelMember(s, q.1);
      assert q.1 == hub;
    }
  }

  /** What the renderer of a hub and spoke is given; the hub may be missing. */
  ghost predicate HubInput(opts: Options, specs: NodeSpecs, hub: string, spokes: set<string>)
  {
    && spokes <= specs.Keys
    && (opts.createRoutes ==> forall n | n in spokes + {hub} && n in specs :: Addressed(opts, specs[n]))
  }

  /** A spoke whose tunnels are still to be done. */
  ghost predicate SpokeFits(l: Layout, hub: string, s: string, done: set<(string, string)>)
  {
    && l.name(hub, s) == HubName(l.conn, hub, s) && l.name(s, hub) == SpokeName(l.conn, s, hub) && l.group == 0
    && hub != s && hub in l.specs && s in l.specs
    && (l.opts.createRoutes ==> Addressed(l.opts, l.specs[hub]) && Addressed(l.opts, l.specs[s]))
    && (hub, s) in l.links && (s, hub) in l.links && (hub, s) !in done && (s, hub) !in done
  }

  /** Both tunnels between the hub and one spoke. */
  method RenderSpoke(book: AddressBook, hub: string, s: string, conn: Conn, opts: Options, specs: NodeSpecs,
                     steps0: seq<Step>, m0: Members, ghost l: Layout, ghost done: set<(string, string)>)
    returns (steps: seq<Step>, m: Members, ok: bool)
    requires book.Valid() && NamesDiffer(l) && Collected(At(l, book.Assigned()), steps0, m0, done)
    requires conn == l.conn && opts == l.opts && specs == l.specs && SpokeFits(l, hub, s, done)
    modifies book, book.pool
    ensures book.Valid() && Spent(old(book.Balance()), book.Balance(), {hub, s})
    ensures ok <==> Enough(old(book.Balance()), {hub, s})
    ensures ok ==> Collected(At(l, book.Assigned()), steps, m, done + BothEnds(hub, s))
  {
    ghost var x, ends := book.Balance(), {hub, s};
    steps, m, ok := RenderTunnel(book, hub, s, HubName(conn, hub, s), conn, opts, specs, 0, steps0, m0, l, done, ends);
    if ok {
      ghost var y := book.Balance();
      steps, m, ok := RenderTunnel(book, s, hub, SpokeName(conn, s, hub), conn, opts, specs, 0, steps, m, l,
                                   done + {(hub, s)}, ends);
      SpentAgain(x, y, book.Balance(), ends, ok);
      BothEndsSplit(hub, s, done);
    }
  }

  lemma OneMoreSpoke(hub: string, s: string, spokes: set<string>, todo: set<string>, l: Layout)
    requires s in todo && todo <= spokes && hub !in spokes - todo && hub != s
    requires l == HubLayout(l.conn, l.opts, l.specs, l.addr, hub, spokes, l.ports, l.parms)
    requires HubInput(l.opts, l.specs, hub, spokes) && hub in l.specs
    ensures HubPairs(hub, spokes - (todo - {s})) == HubPairs(hub, spokes - todo) + BothEnds(hub, s)
    ensures SpokeFits(l, hub, s, HubPairs(hub, spokes - todo))
  {}

  /** The tunnels of all spokes, in any order; a spoke that is the hub is an error. */
  method RenderSpokes(book: AddressBook, hub: string, conn: Conn, opts: Options, specs: NodeSpecs, spokes: set<string>,
                      m0: Members, ghost l: Layout)
    returns (steps: seq<Step>, m: Members, ok: bool)
    requires book.Valid() && NamesDiffer(l) && Collected(At(l, book.Assigned()), [], m0, {})
    requires HubInput(opts, specs, hub, spokes) && hub in specs
    requires l == HubLayout(conn, opts, specs, l.addr, hub, spokes, l.ports, l.parms)
    modifies book, book.pool
    ensures book.Valid() && Spent(old(book.Balance()), book.Balance(), HubEnds(hub, spokes))
    ensures ok <==> hub !in spokes && Enough(old(book.Balance()), HubEnds(hub, spokes))
    ensures ok ==> Collected(At(l, book.Assigned()), steps, m, HubPairs(hub, spokes))
  {
    steps, m, ok := [], m0, true;
    var todo := spokes;
    ghost var x, ends, now: set<(string, string)> := book.Balance(), HubEnds(hub, spokes), {};
    SpentNothing(x, ends);
    assert HubPairs(hub, spokes - todo) == {};
    while todo != {}
      invariant todo <= spokes && hub !in spokes - todo
      invariant book.Valid() && Spent(x, book.Balance(), ends)
      invariant now == HubPairs(hub, spokes - todo) && Collected(At(l, book.Assigned()), steps, m, now)
    {
      var s :| s in todo;
      if hub == s { return steps, m, false; }
      OneMoreSpoke(hub, s, spokes, todo, l);
      ghost var y := book.Balance();
      steps, m, ok := RenderSpoke(book, hub, s, conn, opts, specs, steps, m, l, now);
      SpentPart(x, y, book.Balance(), {hub, s}, ends, ok);
      if !ok { return; }
      now := now + BothEnds(hub, s);
      todo := todo - {s};
    }
    assert spokes - todo == spokes;
    HubEndsKnown(At(l, book.Assigned()), hub, spokes, steps);
    EnoughWas(x, book.Balance(), ends);
  }

  /** The nodes that need addresses: the hub and the spokes, if there are any. */
  ghost function HubEnds(hub: string, spokes: set<string>): set<string> { if spokes == {} then {} else spokes + {hub} }

  lemma HubEndsKnown(l: Layout, hub: string, spokes: set<string>, steps: seq<Step>)
    requires StepsDone(l, steps, HubPairs(hub, spokes))
    ensures HubEnds(hub, spokes) <= l.addr.Keys
  {
    forall s | s in spokes ensures s in l.addr && hub in l.addr {
      assert (hub, s) in HubPairs(hub, spokes) && Known(l, (hub, s));
    }
  }

  /** The steps render the hub and spoke with the addresses of the book. */
  ghost predicate RendersHub(steps: seq<Step>, conn: Conn, opts: Options, specs: NodeSpecs, addr: map<string, string>,
                             hub: string, spokes: set<string>, ports: seq<Port>, parms: BDParms)
  {
    var l := HubLayout(conn, opts, specs, addr, hub, spokes, ports, parms);
    hub !in spokes && l.Valid() && IsRendering(l, Blocks(steps)) && forall s | s in steps :: !s.Fail?
  }

  lemma HubCollected(l: Layout, hub: string, spokes: set<string>, steps: seq<Step>, m: Members, bridges: seq<Step>)
    requires l == HubLayout(l.conn, l.opts, l.specs, l.addr, hub, spokes, l.ports, l.parms) && hub !in spokes
    requires l.nodes <= l.specs.Keys && PortsFit(l.ports, spokes) && DistinctAddresses(l.addr)
    requires Collected(l, steps, m, l.links) && BridgesDone(l.conn, l.parms, m, l.nodes, bridges)
    ensures RendersHub(steps + bridges, l.conn, l.opts, l.specs, l.addr, hub, spokes, l.ports, l.parms)
  {
    forall a, b | (a, b) in l.links ensures a in l.addr { assert Known(l, (a, b)); }
    HubLayoutIsValid(l, hub, spokes);
    CollectedIsRendering(l, steps, m, bridges);
  }

  /** The bridges of the spokes and then the hub's. */
  method RenderHubBridges(conn: Conn, parms: BDParms, m: Members, hub: string, spokes: set<string>)
    returns (steps: seq<Step>)
    ensures BridgesDone(conn, parms, m, spokes + {hub}, steps)
  {
    steps := RenderBridges(conn, parms, m, spokes);
    var last := RenderBridges(conn, parms, m, {hub});
    BridgesJoin(conn, parms, m, spokes, {hub}, steps, last);
    steps := steps + last;
  }

  /** A hub and spoke whose hub is known. */
  method RenderHub(book: AddressBook, hub: string, conn: Conn, opts: Options, specs: NodeSpecs, spokes: set<string>,
                   ports: seq<Port>, parms: BDParms)
    returns (steps: seq<Step>, ok: bool)
    requires book.Valid() && (book.usePool || DistinctAddresses(book.fixed))
    requires HubInput(opts, specs, hub, spokes) && hub in specs && PortsFit(ports, spokes)
    modifies book, book.pool
    ensures book.Valid() && Spent(old(book.Balance()), book.Balance(), HubEnds(hub, spokes))
    ensures ok <==> hub !in spokes && Enough(old(book.Balance()), HubEnds(hub, spokes))
    ensures ok ==> RendersHub(steps, conn, opts, specs, book.Assigned(), hub, spokes, ports, parms)
  {
    var m := CollectPods(ports);
    ghost var l := HubLayout(conn, opts, specs, book.Assigned(), hub, spokes, ports, parms);
    NothingCollected(l, m);
    HubNamesDiffer(l, hub, spokes);
    steps, m, ok := RenderSpokes(book, hub, conn, opts, specs, spokes, m, l);
    if !ok { return; }
    var bridges := RenderHubBridges(conn, parms, m, hub, spokes);
    if book.usePool { book.PoolAddressesDistinct(); }
    HubCollected(At(l, book.Assigned()), hub, spokes, steps, m, bridges);
    steps := steps + bridges;
  }

  /**
   * Renders the tunnels between the hub and each spoke, under the overlay's VNI, and a bridge for each of the nodes.
   */
  method RenderConnL2MPVxlanHubAndSpoke(book: AddressBook, hub: string, conn: Conn, opts: Options, specs: NodeSpecs,
                                        spokes: set<string>, ports: seq<Port>, parms: BDParms)
    returns (steps: seq<Step>, ok: bool)
    requires book.Valid() && (book.usePool || DistinctAddresses(book.fixed))
    requires HubInput(opts, specs, hub, spokes) && PortsFit(ports, spokes)
    modifies book, book.pool
    ensures book.Valid() && Spent(old(book.Balance()), book.Balance(), HubEnds(hub, spokes))
    ensures ok <==> hub in specs && hub !in spokes && Enough(old(book.Balance()), HubEnds(hub, spokes))
    ensures ok ==> RendersHub(steps, conn, opts, specs, book.Assigned(), hub, spokes, ports, parms)
    ensures !ok ==> Messages(steps) != []
  {
    SpentNothing(book.Balance(), HubEnds(hub, spokes));
    if hub !in specs { return [Fail("hub_node: " + hub + " not found")], false; }
    steps, ok := RenderHub(book, hub, conn, opts, specs, spokes, ports, parms);
    if !ok {
      StillReported(steps, [Fail("hub node same as spoke, or no vxlan address")]);
      steps := steps + [Fail("hub node same as spoke, or no vxlan address")];
    }
  }

  /**
   * In the rendered configuration a frame from a pod interface of the connection reaches every other one
   * exactly once, and no other interface, across at most three bridges.
   */
  lemma RenderedHubFloodsOnce(level: Level, steps: seq<Step>, conn: Conn, opts: Options, specs: NodeSpecs,
                              addr: map<string, string>, hub: string, spokes: set<string>, ports: seq<Port>,
                              parms: BDParms, src: Port)
    requires RendersHub(steps, conn, opts, specs, addr, hub, spokes, ports, parms) && parms.flood && src in ports
    requires PortsFit(ports, spokes)
    requires Foreign(level.entries, HubLayout(conn, opts, specs, addr, hub, spokes, ports, parms))
    ensures FloodsOnce(ExecAll(level, steps).entries, ports, src, 3)
  {
    var l := HubLayout(conn, opts, specs, addr, hub, spokes, ports, parms);
    ExecAllLays(level, steps);
    assert Among(l, Blocks(steps)) && AllUnlike(l, Blocks(steps));
    RenderingRealizes(l, level.entries, Blocks(steps));
    FabricPods(l);
    HubFabric(l, hub, spokes);
    HubAndSpokeFloodsOnce(ExecAll(level, steps).entries, l.ToFabric(), hub, src);
  }

  lemma HubFabric(l: Layout, hub: string, spokes: set<string>)
    requires l == HubLayout(l.conn, l.opts, l.specs, l.addr, hub, spokes, l.ports, l.parms) && hub !in spokes
    requires PortsFit(l.ports, spokes)
    ensures IsHubAndSpoke(l.ToFabric(), hub)
  {
    var f := l.ToFabric();
    assert forall x | x in f.pods[hub] :: Port(hub, x) in l.ports;
    assert f.pods[hub] == {};
  }

  /** The entries of a hub and spoke do not depend on the order in which the spokes were gone through. */
  lemma HubOrderDoesNotMatter(level: Level, steps: seq<Step>, steps': seq<Step>, conn: Conn, opts: Options,
                              specs: NodeSpecs, addr: map<string, string>, hub: string, spokes: set<string>,
                              ports: seq<Port>, parms: BDParms)
    requires RendersHub(steps, conn, opts, specs, addr, hub, spokes, ports, parms)
    requires RendersHub(steps', conn, opts, specs, addr, hub, spokes, ports, parms)
    ensures ExecAll(level, steps).entries == ExecAll(level, steps').entries
  {
    ExecAllLays(level, steps);
    ExecAllLays(level, steps');
    RenderingIsCanonical(HubLayout(conn, opts, specs, addr, hub, spokes, ports, parms), level.entries, Blocks(steps),
                         Blocks(steps'));
  }
}
