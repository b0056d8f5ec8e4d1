/** Two connections of a service over a hub and spoke that share their spokes: the renderer mixes their frames. */
module HubLeak {
  import opened Unsigned
  import opened Addresses
  import opened Entries
  import opened Entities
  import opened Layers
  import opened Forwarding
  import opened Overlay
  import opened Layouts
  import opened Tunnels
  import opened PodInterfaces
  import opened Services
  import opened Hubs
  import Ipam

  function MemifAt(node: string, pod: string): PodIf
  {
    PodIf(MemifPod, node, pod, "e", true, true, true, "", [], 0, "", 0, "", "", [], [])
  }

  function Flooding(): BDParms { BDParms(true, true, true, true, false, 0) }

  function Overlay7(): Shared
  {
    Shared("s", Options(false, false, "", 0, "", 0, 0), map["h" := [], "a" := [], "b" := []], HubOverlay("h", 7))
  }

  /** Two connections, each with a pod at node a and one at node b. */
  function TwoConnections(): seq<Connection>
  {
    [L2MP([MemifAt("a", "p"), MemifAt("b", "q")], Flooding()), L2MP([MemifAt("a", "r"), MemifAt("b", "t")], Flooding())]
  }

  function Fixed(): map<string, string> { map["h" := "1", "a" := "2", "b" := "3"] }

  lemma PodsDiffer(x: string, y: string, p: char, q: char)
    requires p != q
    ensures MemifAt(x, [p]).AsPort() != MemifAt(y, [q]).AsPort()
  {
    assert MemifAt(x, [p]).SwitchName()[17] == p;
    assert MemifAt(y, [q]).SwitchName()[17] == q;
  }

  lemma NodesAre(c: Connection)
    requires c in TwoConnections()
    ensures NodesOf(c.pods) == {"a", "b"}
  {
    assert NodesOf(c.pods) == {c.pods[0].node, c.pods[1].node};
  }

  lemma ConnectionsFit(c: Connection)
    requires c in TwoConnections()
    ensures c.L2MP? && ConnectionFits(Overlay7(), c)
  {
    NodesAre(c);
    forall p | p in c.Pods() ensures !(TUNNEL_PREFIX <= p.name) { assert |p.name| == 1; }
    assert |c.pods| == 2 && c.pods[0].AsPort().node == "a" && c.pods[1].AsPort().node == "b";
  }

  lemma ConnectionsReady(c: Connection)
    requires c in TwoConnections()
    ensures EndsOf(Overlay7(), c) <= Fixed().Keys && Renderable(Overlay7(), c)
  {
    NodesAre(c);
  }

  lemma TwoReady(x: Account)
    requires x.addr == Fixed()
    ensures AllRenderable(Overlay7(), TwoConnections(), 2) && Enough(x, EndsTo(Overlay7(), TwoConnections(), 2))
  {
    var conns := TwoConnections();
    ConnectionsReady(conns[0]);
    ConnectionsReady(conns[1]);
    assert EndsTo(Overlay7(), conns, 1) == EndsTo(Overlay7(), conns, 0) + EndsOf(Overlay7(), conns[0]);
    SpentNothing(x, EndsTo(Overlay7(), conns, 2));
    EnoughWas(x, x, EndsTo(Overlay7(), conns, 2));
  }

  lemma PortsAreUsedOnce()
    ensures PortsDiffer(TwoConnections()[0], TwoConnections()[1])
  {
    PodsDiffer("a", "a", 'p', 'r');
    PodsDiffer("a", "b", 'p', 't');
    PodsDiffer("b", "a", 'q', 'r');
    PodsDiffer("b", "b", 'q', 't');
  }

  lemma IsHubRun()
    ensures HubRun(TheRun())
  {
    var conns := TwoConnections();
    forall i | 0 <= i < 2 ensures conns[i].L2MP? && ConnectionFits(Overlay7(), conns[i]) { ConnectionsFit(conns[i]); }
    PortsAreUsedOnce();
  }

  lemma FixedAreDistinct()
    ensures DistinctAddresses(Fixed())
  {
    assert StripSlash("1") == "1" && StripSlash("2") == "2" && StripSlash("3") == "3";
  }

  /** A pool that is not used: the addresses are fixed. */
  method SomePool() returns (pool: Ipam.PoolAllocator)
    ensures fresh(pool) && pool.Valid() && Ipam.Ready(pool.Value()) && pool.net.Valid()
    ensures forall id: u32 | pool.start <= id <= pool.end :: Ipam.Fits(pool.net, id)
  {
    pool := new Ipam.PoolAllocator(1, 10, Network(0x0A00_0000, 24));
    Ipam.Network24();
    assert Pow2(8) == 0x100;
  }

  /** The pod of the first connection at node a, and the pod of the second connection at node b. */
  function Sender(): Port { TwoConnections()[0].pods[0].AsPort() }

  function Stranger(): Port { TwoConnections()[1].pods[1].AsPort() }

  ghost function TheRun(): Run { Run(Overlay7(), seq(2, _ => 7), TwoConnections()) }

  lemma StrangerIsNoMember()
    ensures Stranger() !in PortsOf(TwoConnections()[0].pods)
  {
    PortsAreUsedOnce();
    PortIsOf(TwoConnections()[0].pods, Stranger());
  }

  /** Renders the two connections. */
  method RenderTwo() returns (steps: seq<Step>, ghost addr: map<string, string>)
    ensures (forall s | s in steps :: !s.Fail?) && HubRun(TheRun())
    ensures HubService(map[], HubLayouts([TheRun()], addr), Blocks(steps), "h", 7)
  {
    var pool := SomePool();
    FixedAreDistinct();
    IsHubRun();
    var book := new AddressBook(false, Fixed(), pool);
    TwoReady(book.Balance());
    var ok;
    steps, ok := RenderHubService(book, Overlay7(), TwoConnections());
    addr := book.Assigned();
  }

  /**
   * Rendered by the renderer, in a state that it is given nothing to object to, the two connections leak: a frame from
   * the pod of the first connection at node a reaches the pod of the second connection at node b.
   */
  method SharedSpokesAreReached() returns (steps: seq<Step>, ghost t: seq<Hop>)
    ensures forall s | s in steps :: !s.Fail?
    ensures Delivers(ExecAll(EMPTY, steps).entries, t, Sender(), Stranger())
    ensures Stranger() !in PortsOf(TwoConnections()[0].pods)
  {
    ghost var addr;
    steps, addr := RenderTwo();
    StrangerIsNoMember();
    PortsAreOf(addr);
    t := Leaks(TheRun(), addr, HubLayouts([TheRun()], addr), Blocks(steps), Sender(), Stranger());
    ExecAllLays(EMPTY, steps);
  }

  lemma PortsAreOf(addr: map<string, string>)
    requires HubRun(TheRun())
    ensures var l, k := HubLayoutAt(TheRun(), addr, 0), HubLayoutAt(TheRun(), addr, 1);
            Sender() in l.ports && Stranger() in k.ports && Stranger().node in Spokes(l, "h")
    ensures Sender().node != Stranger().node
  {
    var conns := TwoConnections();
    NodesAre(conns[0]);
    assert Sender() == PortsOf(conns[0].pods)[0] && Stranger() == PortsOf(conns[1].pods)[1];
  }

  lemma InLayouts(run: Run, addr: map<string, string>, i: nat)
    requires HubRun(run) && i < |run.conns|
    ensures HubLayoutAt(run, addr, i) in HubLayouts([run], addr)
  {
    assert Within([run], 0, i) && [run][0] == run;
  }

  lemma Leaks(run: Run, addr: map<string, string>, ls: iset<Layout>, all: seq<seq<KV>>, src: Port, dst: Port)
    returns (t: seq<Hop>)
    requires HubRun(run) && |run.conns| == 2 && ls == HubLayouts([run], addr)
    requires HubService(map[], ls, all, run.sh.kind.hub, run.sh.kind.vni)
    requires src in HubLayoutAt(run, addr, 0).ports && dst in HubLayoutAt(run, addr, 1).ports
    requires dst.node in Spokes(HubLayoutAt(run, addr, 0), run.sh.kind.hub) && src.node != dst.node
    ensures Delivers(LayBlocks(map[], all), t, src, dst)
  {
    InLayouts(run, addr, 0);
    InLayouts(run, addr, 1);
    t := SharedSpokeLeaks(map[], ls, all, run.sh.kind.hub, run.sh.kind.vni, HubLayoutAt(run, addr, 0),
                          HubLayoutAt(run, addr, 1), src, dst);
  }
}
