/** The L2MP renderers of networkservice_l2mp.go and networknodeoverlay_vxlanmesh.go: a VXLAN full mesh. */
module Mesh {
  import opened Text
  import opened Unsigned
  import opened Entries
  import opened SortedMembers
  import opened Entities
  import opened Layers
  import opened Forwarding
  import opened Flooding
  import opened Overlay
  import opened Layouts
  import opened Collecting
  import opened Tunnels
  import Vnis

  ghost function AllPairs(nodes: set<string>): set<(string, string)>
  {
    set a, b | a in nodes && b in nodes && a != b :: (a, b)
  }

  ghost function MeshLayout(conn: Conn, opts: Options, specs: NodeSpecs, addr: map<string, string>,
                            nodes: set<string>, ports: seq<Port>, parms: BDParms): Layout
  {
    Layout(conn, (a, b) => MeshName(conn, a, b), opts, specs, addr, nodes, AllPairs(nodes), ports, parms, 1)
  }

  lemma MeshNameInjective(c: Conn, from: string, to: string, to': string)
    requires MeshName(c, from, to) == MeshName(c, from, to')
    ensures to == to'
  {
    var pre := TUNNEL_PREFIX + "MESH_NET_SRVC_" + Label(c) + "_FROM_" + from + "_TO_";
    CommonSuffix(pre + to, pre + to', "_VNI_" + Decimal(c.vni));
    CommonPrefix(pre, to, to');
  }

  lemma MeshNamePrefix(c: Conn, from: string, to: string)
    ensures TUNNEL_PREFIX <= MeshName(c, from, to) && MeshName(c, from, to) != LoopbackName(from)
  {
    assert MeshName(c, from, to)[9] == 'M';
    assert LoopbackName(from)[9] == 'L';
  }

  lemma MeshLayoutIsValid(conn: Conn, opts: Options, specs: NodeSpecs, addr: map<string, string>,
                          nodes: set<string>, ports: seq<Port>, parms: BDParms)
    requires forall a, b | (a, b) in AllPairs(nodes) :: a in addr
    requires nodes <= specs.Keys && DistinctAddresses(addr) && PortsFit(ports, nodes)
    ensures MeshLayout(conn, opts, specs, addr, nodes, ports, parms).Valid()
  {
    var l := MeshLayout(conn, opts, specs, addr, nodes, ports, parms);
    forall a, b | (a, b) in l.links ensures TUNNEL_PREFIX <= l.name(a, b) && l.name(a, b) != LoopbackName(a) {
      MeshNamePrefix(conn, a, b);
    }
    forall a, b, c | (a, b) in l.links && (a, c) in l.links && l.name(a, b) == l.name(a, c) ensures b == c {
      MeshNameInjective(conn, a, b, c);
    }
  }

  /** The members of a node's bridge: its pod interfaces in split-horizon group 0, and its tunnels in group 1. */
  lemma MeshBridgeHas(conn: Conn, opts: Options, specs: NodeSpecs, addr: map<string, string>, nodes: set<string>,
                      ports: seq<Port>, parms: BDParms, n: string, m: Member)
    requires MeshLayout(conn, opts, specs, addr, nodes, ports, parms).Valid() && n in nodes
    ensures m in SortedOf(MeshLayout(conn, opts, specs, addr, nodes, ports, parms).Bag(n)) <==>
              || (Port(n, m.name) in ports && !m.bvi && m.shg == 0)
              || exists b :: b in nodes && b != n && m == Member(MeshName(conn, n, b), false, 1)
  {
    var l := MeshLayout(conn, opts, specs, addr, nodes, ports, parms);
    BridgeHas(l, n, m);
    if b :| b in nodes && b != n && m == Member(MeshName(conn, n, b), false, 1) { assert (n, b) in l.links; }
  }

  /** The tunnels from one node to the others. */
  ghost function From(a: string, others: set<string>): set<(string, string)> { set b | b in others && b != a :: (a, b) }

  /** The tunnels that start at some of the nodes. */
  ghost function FromAny(starts: set<string>, nodes: set<string>): set<(string, string)>
  {
    set a, b | a in starts && b in nodes && a != b :: (a, b)
  }

  /** What the renderer of a mesh is given. */
  ghost predicate MeshInput(opts: Options, specs: NodeSpecs, nodes: set<string>)
  {
    nodes <= specs.Keys && (opts.createRoutes ==> forall n | n in nodes :: Addressed(opts, specs[n]))
  }

  /** The tunnels from one node, in any order of the other nodes. */
  method RenderTunnelsFrom(book: AddressBook, a: string, conn: Conn, opts: Options, specs: NodeSpecs,
                           nodes: set<string>, steps0: seq<Step>, m0: Members, ghost l: Layout,
                           ghost done: set<(string, string)>)
    returns (steps: seq<Step>, m: Members, ok: bool)
    requires book.Valid() && NamesDiffer(l) && Collected(At(l, book.Assigned()), steps0, m0, done)
    requires MeshInput(opts, specs, nodes) && a in nodes
    requires l == MeshLayout(conn, opts, specs, l.addr, nodes, l.ports, l.parms)
    requires forall b :: (a, b) !in done
    modifies book, book.pool
    ensures book.Valid() && Spent(old(book.Balance()), book.Balance(), MeshEnds(nodes))
    ensures ok <==> Enough(old(book.Balance()), MeshEnds(nodes))
    ensures ok ==> Collected(At(l, book.Assigned()), steps, m, done + From(a, nodes))
  {
    steps, m, ok := steps0, m0, true;
    var todo := nodes;
    ghost var x, now, ends := book.Balance(), done, MeshEnds(nodes);
    SpentNothing(x, ends);
    assert From(a, nodes - todo) == {};
    while todo != {}
      invariant todo <= nodes && book.Valid() && Spent(x, book.Balance(), ends)
      invariant now == done + From(a, nodes - todo) && Collected(At(l, book.Assigned()), steps, m, now)
    {
      var b :| b in todo;
      OneMore(a, b, nodes, todo, done, l);
      if a != b {
        ghost var y := book.Balance();
        steps, m, ok := RenderTunnel(book, a, b, MeshName(conn, a, b), conn, opts, specs, 1, steps, m, l, now,
                                     {a, b});
        SpentPart(x, y, book.Balance(), {a, b}, ends, ok);
        if !ok { return; }
        now := now + {(a, b)};
      }
      todo := todo - {b};
    }
    assert nodes - todo == nodes;
    MeshEndsKnown(At(l, book.Assigned()), done + From(a, nodes), a, nodes, steps);
    EnoughWas(x, book.Balance(), ends);
  }

  /** The nodes that need addresses: all of them, if there are two. */
  ghost function MeshEnds(nodes: set<string>): set<string> { set n | n in nodes && nodes != {n} }

  lemma MeshEndsKnown(l: Layout, done: set<(string, string)>, a: string, nodes: set<string>, steps: seq<Step>)
    requires StepsDone(l, steps, done) && From(a, nodes) <= done && a in nodes
    ensures MeshEnds(nodes) <= l.addr.Keys
  {
    forall n | n in MeshEnds(nodes) ensures n in l.addr {
      if n != a {
        assert (a, n) in From(a, nodes) && Known(l, (a, n));
      } else {
        var b :| b in nodes && b != a;
        assert (a, b) in From(a, nodes) && Known(l, (a, b));
      }
    }
  }

  lemma OneMore(a: string, b: string, nodes: set<string>, todo: set<string>, done: set<(string, string)>, l: Layout)
    requires a in nodes && b in todo && todo <= nodes && forall b :: (a, b) !in done
    requires l == MeshLayout(l.conn, l.opts, l.specs, l.addr, nodes, l.ports, l.parms)
    ensures done + From(a, nodes - (todo - {b})) == done + From(a, nodes - todo) + if a == b then {} else {(a, b)}
    ensures a != b ==> (a, b) in l.links && (a, b) !in done + From(a, nodes - todo)
    ensures l.name(a, b) == MeshName(l.conn, a, b) && l.group == 1
    ensures a != b ==> {a, b} <= MeshEnds(nodes)
  {}

  lemma OneMoreStart(a: string, nodes: set<string>, todo: set<string>)
    requires a in todo && todo <= nodes
    ensures FromAny(nodes - todo, nodes) + From(a, nodes) == FromAny(nodes - (todo - {a}), nodes)
  {}

  /** The tunnels between all nodes, in any order of the nodes. */
  method RenderMeshTunnels(book: AddressBook, conn: Conn, opts: Options, specs: NodeSpecs, nodes: set<string>,
                           m0: Members, ghost l: Layout)
    returns (steps: seq<Step>, m: Members, ok: bool)
    requires book.Valid() && NamesDiffer(l) && Collected(At(l, book.Assigned()), [], m0, {})
    requires MeshInput(opts, specs, nodes) && l == MeshLayout(conn, opts, specs, l.addr, nodes, l.ports, l.parms)
    modifies book, book.pool
    ensures book.Valid() && Spent(old(book.Balance()), book.Balance(), MeshEnds(nodes))
    ensures ok <==> Enough(old(book.Balance()), MeshEnds(nodes))
    ensures ok ==> Collected(At(l, book.Assigned()), steps, m, AllPairs(nodes))
  {
    steps, m, ok := [], m0, true;
    var todo := nodes;
    ghost var x := book.Balance();
    SpentNothing(x, MeshEnds(nodes));
    assert FromAny(nodes - todo, nodes) == {};
    while todo != {}
      invariant todo <= nodes && book.Valid() && Spent(x, book.Balance(), MeshEnds(nodes))
      invariant todo != nodes ==> Enough(x, MeshEnds(nodes))
      invariant Collected(At(l, book.Assigned()), steps, m, FromAny(nodes - todo, nodes))
    {
      var a :| a in todo;
      ghost var y := book.Balance();
      EnoughStays(x, y, MeshEnds(nodes));
      steps, m, ok := RenderTunnelsFrom(book, a, conn, opts, specs, nodes, steps, m, l, FromAny(nodes - todo, nodes));
      SpentTwice(x, y, book.Balance(), MeshEnds(nodes), MeshEnds(nodes));
      if !ok { return; }
      OneMoreStart(a, nodes, todo);
      todo := todo - {a};
    }
    assert FromAny(nodes - todo, nodes) == AllPairs(nodes);
    if nodes == {} { EnoughWas(x, x, MeshEnds(nodes)); }
  }

  /** All tunnels and bridges of a mesh. */
  lemma MeshCollected(l: Layout, steps: seq<Step>, m: Members, bridges: seq<Step>)
    requires l == MeshLayout(l.conn, l.opts, l.specs, l.addr, l.nodes, l.ports, l.parms)
    requires l.nodes <= l.specs.Keys && PortsFit(l.ports, l.nodes) && DistinctAddresses(l.addr)
    requires Collected(l, steps, m, AllPairs(l.nodes)) && BridgesDone(l.conn, l.parms, m, l.nodes, bridges)
    ensures l.Valid() && IsRendering(l, Blocks(steps + bridges)) && forall s | s in steps + bridges :: !s.Fail?
  {
    forall a, b | (a, b) in l.links ensures a in l.addr { assert Known(l, (a, b)); }
    MeshLayoutIsValid(l.conn, l.opts, l.specs, l.addr, l.nodes, l.ports, l.parms);
    CollectedIsRendering(l, steps, m, bridges);
  }

  lemma MeshNamesDiffer(l: Layout)
    requires l == MeshLayout(l.conn, l.opts, l.specs, l.addr, l.nodes, l.ports, l.parms)
    ensures NamesDiffer(l)
  {
    forall a, b, c | (a, b) in l.links && (a, c) in l.links && l.name(a, b) == l.name(a, c) ensures b == c {
      MeshNameInjective(l.conn, a, b, c);
    }
  }

  /** The steps render the mesh of the nodes with the addresses of the book. */
  ghost predicate RendersMesh(steps: seq<Step>, conn: Conn, opts: Options, specs: NodeSpecs, addr: map<string, string>,
                              nodes: set<string>, ports: seq<Port>, parms: BDParms)
  {
    var l := MeshLayout(conn, opts, specs, addr, nodes, ports, parms);
    l.Valid() && IsRendering(l, Blocks(steps)) && forall s | s in steps :: !s.Fail?
  }

  /** The mesh once its VNI is known. */
  method RenderMesh(book: AddressBook, conn: Conn, opts: Options, specs: NodeSpecs, nodes: set<string>,
                    ports: seq<Port>, parms: BDParms)
    returns (steps: seq<Step>, ok: bool)
    requires book.Valid() && (book.usePool || DistinctAddresses(book.fixed))
    requires MeshInput(opts, specs, nodes) && PortsFit(ports, nodes)
    modifies book, book.pool
    ensures book.Valid() && Spent(old(book.Balance()), book.Balance(), MeshEnds(nodes))
    ensures ok <==> Enough(old(book.Balance()), MeshEnds(nodes))
    ensures ok ==> RendersMesh(steps, conn, opts, specs, book.Assigned(), nodes, ports, parms)
  {
    var m;
    m := CollectPods(ports);
    ghost var l := MeshLayout(conn, opts, specs, book.Assigned(), nodes, ports, parms);
    NothingCollected(l, m);
    MeshNamesDiffer(l);
    steps, m, ok := RenderMeshTunnels(book, conn, opts, specs, nodes, m, l);
    if !ok { return; }
    var bridges := RenderBridges(conn, parms, m, nodes);
    if book.usePool { book.PoolAddressesDistinct(); }
    MeshCollected(At(l, book.Assigned()), steps, m, bridges);
    steps := steps + bridges;
  }

  /** Renders the tunnels between all nodes of a connection, under a new VNI, and a bridge for each node. */
  method RenderConnL2MPVxlanMesh(book: AddressBook, vnis: Vnis.VniAllocator?, service: string, index: nat,
                                 opts: Options, specs: NodeSpecs, nodes: set<string>, ports: seq<Port>, parms: BDParms)
    returns (steps: seq<Step>, vni: u32, ghost drawn: bool, ok: bool)
    requires book.Valid() && (book.usePool || DistinctAddresses(book.fixed)) && (vnis != null ==> vnis.Valid())
    requires MeshInput(opts, specs, nodes) && PortsFit(ports, nodes)
    modifies book, book.pool, if vnis == null then {} else {vnis.bm.words}
    ensures book.Valid() && Spent(old(book.Balance()), book.Balance(), MeshEnds(nodes))
    ensures if vnis == null then !drawn else Vnis.Drawn(vnis.range, old(vnis.Taken()), vnis.Taken(), vni, drawn)
    ensures ok <==> drawn && Enough(old(book.Balance()), MeshEnds(nodes))
    ensures ok ==> RendersMesh(steps, Conn(service, index, vni), opts, specs, book.Assigned(), nodes, ports, parms)
    ensures !ok ==> Messages(steps) != []
  {
    ghost var x := book.Balance();
    SpentNothing(x, MeshEnds(nodes));
    vni, ok := 0, vnis != null;
    if ok { vni, ok := vnis.AllocateVni(); }
    assert book.Balance() == x;
    drawn := ok;
    if !ok { return [Fail("out of vni's")], vni, drawn, false; }
    ghost var words := vnis.bm.words[..];
    steps, ok := RenderMesh(book, Conn(service, index, vni), opts, specs, nodes, ports, parms);
    assert vnis.bm.words[..] == words;
    if !ok {
      StillReported(steps, [Fail("no vxlan address")]);
      steps := steps + [Fail("no vxlan address")];
    }
  }

  /**
   * In the rendered configuration a frame from a pod interface of the connection reaches every other one
   * exactly once, and no other interface, across at most two bridges.
   */
  lemma RenderedMeshFloodsOnce(level: Level, steps: seq<Step>, conn: Conn, opts: Options, specs: NodeSpecs,
                               addr: map<string, string>, nodes: set<string>, ports: seq<Port>, parms: BDParms,
                               src: Port)
    requires RendersMesh(steps, conn, opts, specs, addr, nodes, ports, parms) && parms.flood && src in ports
    requires Foreign(level.entries, MeshLayout(conn, opts, specs, addr, nodes, ports, parms))
    ensures FloodsOnce(ExecAll(level, steps).entries, ports, src, 2)
  {
    var l := MeshLayout(conn, opts, specs, addr, nodes, ports, parms);
    ExecAllLays(level, steps);
    assert Among(l, Blocks(steps)) && AllUnlike(l, Blocks(steps));
    RenderingRealizes(l, level.entries, Blocks(steps));
    FabricPods(l);
    MeshFloodsOnce(ExecAll(level, steps).entries, l.ToFabric(), src);
  }

  /** The entries of a mesh do not depend on the orders in which the nodes were gone through. */
  lemma MeshOrderDoesNotMatter(level: Level, steps: seq<Step>, steps': seq<Step>, conn: Conn, opts: Options,
                               specs: NodeSpecs, addr: map<string, string>, nodes: set<string>, ports: seq<Port>,
                               parms: BDParms)
    requires RendersMesh(steps, conn, opts, specs, addr, nodes, ports, parms)
    requires RendersMesh(steps', conn, opts, specs, addr, nodes, ports, parms)
    ensures ExecAll(level, steps).entries == ExecAll(level, steps').entries
  {
    ExecAllLays(level, steps);
    ExecAllLays(level, steps');
    RenderingIsCanonical(MeshLayout(conn, opts, specs, addr, nodes, ports, parms), level.entries, Blocks(steps),
                         Blocks(steps'));
  }
}
