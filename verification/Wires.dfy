/** Rendering of an L2PP connection between nodes: renderConnL2PPVxlanMesh of networknodeoverlay_vxlanmesh.go. */
module Wires {
  import opened Unsigned
  import opened Entries
  import opened Entities
  import opened Overlay
  import opened Collecting
  import opened Tunnels
  import opened PointToPoint
  import Vnis

  /** Addresses that are already there stay as they are. */
  lemma SameAddresses(m: map<string, string>, a: string, b: string)
    requires a in m && b in m
    ensures m[a := m[a]][b := m[b]] == m
  {}

  /** The first i tunnels of a wire are done. */
  ghost predicate TunnelsDone(opts: Options, specs: NodeSpecs, addr: map<string, string>, w: Wire, i: nat,
                              steps: seq<Step>)
  {
    if i == 0 then steps == [] else w.Known(addr, specs) && steps == TunnelPart(Ground(opts, specs, addr), w, i)
  }

  lemma OneMoreTunnel(opts: Options, specs: NodeSpecs, addr: map<string, string>, w: Wire, i: nat, steps: seq<Step>,
                      x: string, y: string)
    requires w.a.node in specs && w.b.node in specs && i < 2
    requires TunnelsDone(opts, specs, addr, w, i, steps)
    requires w.From(i).node in addr ==> addr[w.From(i).node] == x
    requires w.To(i).node in addr[w.From(i).node := x] ==> addr[w.From(i).node := x][w.To(i).node] == y
    ensures TunnelsDone(opts, specs, addr[w.From(i).node := x][w.To(i).node := y], w, i + 1,
                        steps + TunnelSteps(w.conn, opts, specs, w.From(i).node, w.To(i).node, w.Name(i), x, y))
  {
    if i == 0 {
      var g := Ground(opts, specs, addr[w.From(i).node := x][w.To(i).node := y]);
      assert TunnelPart(g, w, 0) == [];
    } else {
      SameAddresses(addr, w.From(i).node, w.To(i).node);
    }
  }

  /** The tunnel from one end to the other. */
  method RenderWireTunnel(book: AddressBook, opts: Options, specs: NodeSpecs, w: Wire, i: nat, steps0: seq<Step>)
    returns (steps: seq<Step>, ok: bool)
    requires book.Valid() && EndsKnown(opts, specs, w.a, w.b) && i < 2
    requires TunnelsDone(opts, specs, book.Assigned(), w, i, steps0)
    modifies book, book.pool
    ensures book.Valid() && Spent(old(book.Balance()), book.Balance(), w.Nodes())
    ensures ok <==> Enough(old(book.Balance()), w.Nodes())
    ensures ok ==> TunnelsDone(opts, specs, book.Assigned(), w, i + 1, steps)
  {
    var from, to := w.From(i).node, w.To(i).node;
    assert {from, to} == w.Nodes();
    ghost var addr := book.Assigned();
    var fromAddr, toAddr;
    fromAddr, toAddr, ok := TunnelAddresses(book, from, to);
    if !ok { return steps0, false; }
    var entries := RenderLoopbackAndRoutes(opts, specs, from, to, fromAddr, toAddr);
    OneMoreTunnel(opts, specs, addr, w, i, steps0, fromAddr, toAddr);
    steps := steps0 + [Add(VxlanEntry(from, w.Name(i), w.conn.vni, fromAddr, toAddr)), AddThrough(entries)];
  }

  /** The names of the first tunnels. */
  function FirstNames(w: Wire, i: nat): seq<string> { if i == 0 then [] else FirstNames(w, i - 1) + [w.Name(i - 1)] }

  lemma BothNames(w: Wire)
    ensures FirstNames(w, 2) == [w.Name(0), w.Name(1)]
  {
    assert FirstNames(w, 1) == FirstNames(w, 0) + [w.Name(0)];
  }

  /** Both tunnels of a wire, each from one end to the other. */
  method RenderWireTunnels(book: AddressBook, opts: Options, specs: NodeSpecs, w: Wire)
    returns (steps: seq<Step>, names: seq<string>, ok: bool)
    requires book.Valid() && EndsKnown(opts, specs, w.a, w.b)
    modifies book, book.pool
    ensures book.Valid() && Spent(old(book.Balance()), book.Balance(), w.Nodes())
    ensures ok <==> Enough(old(book.Balance()), w.Nodes())
    ensures ok ==> TunnelsDone(opts, specs, book.Assigned(), w, 2, steps) && names == FirstNames(w, 2)
  {
    steps, names, ok := [], [], true;
    ghost var x, ends := book.Balance(), w.Nodes();
    SpentNothing(x, ends);
    for i := 0 to 2
      invariant book.Valid() && Spent(x, book.Balance(), ends) && (i > 0 ==> Enough(x, ends))
      invariant TunnelsDone(opts, specs, book.Assigned(), w, i, steps) && names == FirstNames(w, i)
    {
      ghost var y := book.Balance();
      steps, ok := RenderWireTunnel(book, opts, specs, w, i, steps);
      SpentAgain(x, y, book.Balance(), ends, ok);
      if !ok { return; }
      names := names + [w.Name(i)];
    }
    ok := true;
  }

  /** The cross-connects of both ends with their tunnels. */
  method RenderCrossConnects(w: Wire, names: seq<string>) returns (steps: seq<Step>)
    requires names == [w.Name(0), w.Name(1)]
    ensures steps == CrossPart(w, 2)
  {
    steps := [];
    for i := 0 to 2
      invariant steps == CrossPart(w, i)
    {
      steps := steps + [Add(OneWay(w.From(i).node, w.From(i).ifName, names[i]))];
      steps := steps + [Add(OneWay(w.From(i).node, names[i], w.From(i).ifName))];
    }
  }

  ghost predicate EndsKnown(opts: Options, specs: NodeSpecs, a: End, b: End)
  {
    && a.node in specs && b.node in specs
    && (opts.createRoutes ==> Addressed(opts, specs[a.node]) && Addressed(opts, specs[b.node]))
  }

  /** Renders one connection under a new VNI: tunnels both ways and cross-connects at both ends. */
  method RenderConnL2PPVxlanMesh(book: AddressBook, vnis: Vnis.VniAllocator?, service: string, index: nat,
                                 opts: Options, specs: NodeSpecs, a: End, b: End)
    returns (steps: seq<Step>, vni: u32, ghost drawn: bool, ok: bool)
    requires book.Valid() && (vnis != null ==> vnis.Valid()) && EndsKnown(opts, specs, a, b)
    modifies book, book.pool, if vnis == null then {} else {vnis.bm.words}
    ensures book.Valid() && Spent(old(book.Balance()), book.Balance(), {a.node, b.node})
    ensures if vnis == null then !drawn else Vnis.Drawn(vnis.range, old(vnis.Taken()), vnis.Taken(), vni, drawn)
    ensures ok <==> drawn && Enough(old(book.Balance()), {a.node, b.node})
    ensures ok ==> var w := Wire(Conn(service, index, vni), a, b);
              w.Known(book.Assigned(), specs) && steps == WireSteps(Ground(opts, specs, book.Assigned()), w)
    ensures !ok ==> Messages(steps) != []
  {
    ghost var x := book.Balance();
    SpentNothing(x, {a.node, b.node});
    vni, ok := 0, vnis != null;
    if ok { vni, ok := vnis.AllocateVni(); }
    assert book.Balance() == x;
    drawn := ok;
    if !ok { return [Fail("out of vni's")], vni, drawn, false; }
    var w := Wire(Conn(service, index, vni), a, b);
    var names;
    ghost var words := vnis.bm.words[..];
    steps, names, ok := RenderWireTunnels(book, opts, specs, w);
    assert vnis.bm.words[..] == words;
    if ok {
      BothNames(w);
      var crosses := RenderCrossConnects(w, names);
      steps := steps + crosses;
    } else {
      StillReported(steps, [Fail("no vxlan address")]);
      steps := steps + [Fail("no vxlan address")];
    }
  }

  lemma {:induction false} TunnelPartKeeps(g: Ground, addr: map<string, string>, w: Wire, k: nat)
    requires w.Known(g.addr, g.specs) && Extends(g.addr, addr)
    ensures w.Known(addr, g.specs) && TunnelPart(g.(addr := addr), w, k) == TunnelPart(g, w, k)
  {
    if k > 0 { TunnelPartKeeps(g, addr, w, k - 1); }
  }

  /** Addresses that other nodes get later do not change the blocks of a connection. */
  lemma WireBlocksKeep(g: Ground, addr: map<string, string>, w: Wire, x: seq<KV>)
    requires w.Known(g.addr, g.specs) && Extends(g.addr, addr)
    ensures w.Known(addr, g.specs) && (IsWireBlock(g, w, x) <==> IsWireBlock(g.(addr := addr), w, x))
  {
    TunnelPartKeeps(g, addr, w, 2);
    WireBlocks(g, w, x);
    WireBlocks(g.(addr := addr), w, x);
  }

  lemma NoFailure(g: Ground, w: Wire)
    requires w.Known(g.addr, g.specs)
    ensures forall s | s in WireSteps(g, w) :: !s.Fail?
  {
    assert TunnelPart(g, w, 0) == [] && CrossPart(w, 0) == [];
    assert forall s | s in TunnelPart(g, w, 1) :: !s.Fail?;
    assert forall s | s in CrossPart(w, 1) :: !s.Fail?;
  }
}
