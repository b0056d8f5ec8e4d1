/** Services with any number of mesh and L2PP connections over one overlay, rendered one after the other. */
module Services {
  import opened Text
  import opened Unsigned
  import opened Addresses
  import opened Entries
  import opened Entities
  import opened Layers
  import opened Forwarding
  import opened Flooding
  import opened Overlay
  import opened Layouts
  import opened Collecting
  import opened Tunnels
  import opened PointToPoint
  import opened Coexisting
  import opened PodInterfaces
  import opened Mesh
  import opened HubAndSpoke
  import opened Wires
  import Vnis

  /** A connection between nodes: interfaces that share bridges, or two that are cross-connected. */
  datatype Connection = L2MP(pods: seq<PodIf>, parms: BDParms) | L2PP(a: PodIf, b: PodIf)
  {
    function Pods(): seq<PodIf> { if L2MP? then pods else [a, b] }
  }

  /** A mesh draws a VNI for each connection; a hub and spoke has one of its own. */
  datatype OverlayKind = MeshOverlay | HubOverlay(hub: string, vni: u32)

  /** What the connections of a service over an overlay share. */
  datatype Shared = Shared(service: string, opts: Options, specs: NodeSpecs, kind: OverlayKind)

  function PortsOf(pods: seq<PodIf>): seq<Port> { seq(|pods|, i requires 0 <= i < |pods| => pods[i].AsPort()) }

  function NodesOf(pods: seq<PodIf>): set<string> { set i | 0 <= i < |pods| :: pods[i].node }

  function EndOf(p: PodIf): End { End(p.node, p.pod, p.name, p.SwitchName()) }

  /** The connection at a position, counted from 0, under a VNI. */
  ghost function PartOf(sh: Shared, i: nat, vni: u32, addr: map<string, string>, c: Connection): Part
  {
    var conn := Conn(sh.service, i + 1, vni);
    match c
    case L2MP(pods, parms) =>
      Bridged(match sh.kind
              case MeshOverlay => MeshLayout(conn, sh.opts, sh.specs, addr, NodesOf(pods), PortsOf(pods), parms)
              case HubOverlay(hub, _) =>
                HubLayout(conn, sh.opts, sh.specs, addr, hub, NodesOf(pods), PortsOf(pods), parms))
    case L2PP(a, b) => Wired(Ground(sh.opts, sh.specs, addr), Wire(conn, EndOf(a), EndOf(b)))
  }

  /** Connections are counted from 1 in the names that are generated for them. */
  lemma FirstConnectionExample(opts: Options, specs: NodeSpecs, addr: map<string, string>, pods: seq<PodIf>,
                               parms: BDParms)
    ensures var l := PartOf(Shared("s", opts, specs, MeshOverlay), 0, 5, addr, L2MP(pods, parms)).layout;
            && l.name("a", "b") == "IF_VXLAN_MESH_NET_SRVC_s_CONN_1_FROM_a_TO_b_VNI_5"
            && BridgeName(l.conn) == "BD_s_CONN_1"
  {
    MeshNameExample();
  }

  /**
   * What the callers have made sure of: the nodes are known, interfaces have no names of generated tunnels and
   * stand in the connection once, and the ends of an L2PP connection are at different nodes.
   */
  ghost predicate ConnectionFits(sh: Shared, c: Connection)
  {
    && (forall p | p in c.Pods() :: !(TUNNEL_PREFIX <= p.name))
    && match c
       case L2MP(pods, _) =>
         && (match sh.kind
             case MeshOverlay => MeshInput(sh.opts, sh.specs, NodesOf(pods))
             case HubOverlay(hub, _) => HubInput(sh.opts, sh.specs, hub, NodesOf(pods)))
         && forall i, j | 0 <= i < j < |pods| :: pods[i].AsPort() != pods[j].AsPort()
       case L2PP(a, b) => EndsKnown(sh.opts, sh.specs, EndOf(a), EndOf(b)) && a.node != b.node
  }

  lemma PortHasNoTunnelName(p: PodIf)
    requires !(TUNNEL_PREFIX <= p.name)
    ensures !(TUNNEL_PREFIX <= p.SwitchName()) && Plain(PodEntries(p))
  {
    SwitchNameIsNoTunnelName(p);
    PodEntriesArePlain(p);
  }

  lemma PortsOfFit(sh: Shared, c: Connection)
    requires ConnectionFits(sh, c) && c.L2MP?
    ensures PortsFit(PortsOf(c.pods), NodesOf(c.pods))
  {
    forall p | p in PortsOf(c.pods) ensures p.node in NodesOf(c.pods) && !(TUNNEL_PREFIX <= p.ifName) {
      var i :| 0 <= i < |c.pods| && p == c.pods[i].AsPort();
      PortHasNoTunnelName(c.pods[i]);
    }
  }

  /** The entries of the first interfaces. */
  function EntriesOf(pods: seq<PodIf>): seq<KV>
    decreases pods
  {
    if pods == [] then [] else EntriesOf(pods[..|pods| - 1]) + PodEntries(pods[|pods| - 1])
  }

  lemma {:induction false} EntriesArePlain(pods: seq<PodIf>)
    requires forall p | p in pods :: !(TUNNEL_PREFIX <= p.name)
    ensures Plain(EntriesOf(pods))
    decreases pods
  {
    if pods != [] {
      EntriesArePlain(pods[..|pods| - 1]);
      PortHasNoTunnelName(pods[|pods| - 1]);
    }
  }

  /** They are those of some interface. */
  lemma {:induction false} EntriesAre(pods: seq<PodIf>, kv: KV)
    ensures kv in EntriesOf(pods) <==> exists p :: p in pods && kv in PodEntries(p)
    decreases pods
  {
    if pods != [] {
      EntriesAre(pods[..|pods| - 1], kv);
      LastEntries(pods, kv);
    }
  }

  lemma LastEntries(pods: seq<PodIf>, kv: KV)
    requires pods != []
    ensures var init, last := pods[..|pods| - 1], pods[|pods| - 1];
            && (kv in EntriesOf(pods) <==> kv in EntriesOf(init) || kv in PodEntries(last))
            && forall p :: p in pods <==> p in init || p == last
  {}

  /** The first interfaces are rendered. */
  ghost predicate PodsDone(pods: seq<PodIf>, n: nat, steps: seq<Step>, ports: seq<Port>)
    requires n <= |pods|
  {
    && steps == Adds(EntriesOf(pods[..n])) && ports == PortsOf(pods[..n])
    && forall j | 0 <= j < n :: CanRender(pods[j])
  }

  lemma OneMorePod(pods: seq<PodIf>, n: nat, steps: seq<Step>, ports: seq<Port>)
    requires n < |pods| && PodsDone(pods, n, steps, ports) && CanRender(pods[n])
    ensures PodsDone(pods, n + 1, steps + Adds(PodEntries(pods[n])), ports + [pods[n].AsPort()])
  {
    EntriesOneMore(pods, n);
    PortsOneMore(pods, n);
    AddsConcat(EntriesOf(pods[..n]), PodEntries(pods[n]));
  }

  lemma EntriesOneMore(pods: seq<PodIf>, n: nat)
    requires n < |pods|
    ensures EntriesOf(pods[..n + 1]) == EntriesOf(pods[..n]) + PodEntries(pods[n])
  {
    var next := pods[..n + 1];
    assert next[..|next| - 1] == pods[..n] && next[|next| - 1] == pods[n];
  }

  lemma PortsOneMore(pods: seq<PodIf>, n: nat)
    requires n < |pods|
    ensures PortsOf(pods[..n + 1]) == PortsOf(pods[..n]) + [pods[n].AsPort()]
  {}

  /** Renders the interfaces of a connection in order, up to the first that fails. */
  method RenderPods(pods: seq<PodIf>) returns (steps: seq<Step>, ports: seq<Port>, ok: bool)
    ensures ok <==> forall i | 0 <= i < |pods| :: CanRender(pods[i])
    ensures ok ==> steps == Adds(EntriesOf(pods)) && ports == PortsOf(pods)
    ensures !ok ==> Messages(steps) != []
  {
    steps, ports, ok := [], [], true;
    for i := 0 to |pods|
      invariant PodsDone(pods, i, steps, ports)
    {
      var ifName, more;
      ifName, more, ok := RenderConnInterfacePair(pods[i]);
      if !ok {
        StillReported(steps, more);
        return steps + more, ports, false;
      }
      OneMorePod(pods, i, steps, ports);
      steps, ports := steps + more, ports + [Port(pods[i].node, ifName)];
    }
    ok := true;
    assert pods[..|pods|] == pods;
  }

  /** An entry of one of the connection's interfaces, on its own. */
  ghost predicate IsOwn(c: Connection, x: seq<KV>) { exists kv :: kv in EntriesOf(c.Pods()) && x == [kv] }

  /** The steps are those of the connection's interfaces and of its overlay. */
  ghost predicate ConnectionDone(p: Part, c: Connection, steps: seq<Step>)
  {
    && PartValid(p) && (forall s | s in steps :: !s.Fail?)
    && forall x :: x in Blocks(steps) <==> IsPartBlock(p, x) || IsOwn(c, x)
  }

  lemma PodsThenOverlay(p: Part, c: Connection, over: seq<Step>)
    requires PartValid(p) && (forall s | s in over :: !s.Fail?) && forall x :: x in Blocks(over) <==> IsPartBlock(p, x)
    ensures ConnectionDone(p, c, Adds(EntriesOf(c.Pods())) + over)
  {
    AddsBlocks(EntriesOf(c.Pods()));
    BlocksConcat(Adds(EntriesOf(c.Pods())), over);
  }

  /** The steps are those of the overlay of a connection. */
  ghost predicate OverlayDone(p: Part, over: seq<Step>)
  {
    && PartValid(p) && (forall s | s in over :: !s.Fail?)
    && forall x :: x in Blocks(over) <==> IsPartBlock(p, x)
  }

  /** The overlay of an L2MP connection, once its interfaces are rendered. */
  method RenderMeshOverlay(book: AddressBook, vnis: Vnis.VniAllocator?, sh: Shared, i: nat, c: Connection)
    returns (over: seq<Step>, vni: u32, ok: bool)
    requires book.Valid() && (book.usePool || DistinctAddresses(book.fixed)) && (vnis != null ==> vnis.Valid())
    requires c.L2MP? && sh.kind.MeshOverlay? && ConnectionFits(sh, c)
    modifies book, book.pool, if vnis == null then {} else {vnis.bm.words}
    ensures book.Valid() && Spent(old(book.Balance()), book.Balance(), EndsOf(sh, c))
    ensures old(Vnis.NumbersOf(vnis)) <= Vnis.NumbersOf(vnis)
    ensures ok ==> vni !in old(Vnis.NumbersOf(vnis)) && vni in Vnis.NumbersOf(vnis)
    ensures ok ==> OverlayDone(PartOf(sh, i, vni, book.Assigned(), c), over)
    ensures ok <==> old(Vnis.FreeOf(vnis)) > 0 && Enough(old(book.Balance()), EndsOf(sh, c))
    ensures Vnis.FreeOf(vnis) >= old(Vnis.FreeOf(vnis)) - 1
    ensures ok ==> Vnis.FreeOf(vnis) == old(Vnis.FreeOf(vnis)) - 1
    ensures !ok ==> Messages(over) != []
  {
    PortsOfFit(sh, c);
    ghost var taken, drawn := if vnis == null then {} else vnis.Taken(), false;
    over, vni, drawn, ok := RenderConnL2MPVxlanMesh(book, vnis, sh.service, i + 1, sh.opts, sh.specs,
                                                    NodesOf(c.pods), PortsOf(c.pods), c.parms);
    if vnis != null { Vnis.DrawnIs(vnis.range, taken, vnis.Taken(), vni, drawn); }
    if ok { MeshOverlayDone(sh, i, vni, book.Assigned(), c, over); }
  }

  lemma MeshOverlayDone(sh: Shared, i: nat, vni: u32, addr: map<string, string>, c: Connection, over: seq<Step>)
    requires c.L2MP? && sh.kind.MeshOverlay?
    requires RendersMesh(over, Conn(sh.service, i + 1, vni), sh.opts, sh.specs, addr, NodesOf(c.pods), PortsOf(c.pods),
                         c.parms)
    ensures OverlayDone(PartOf(sh, i, vni, addr, c), over)
  {}

  /** The tunnels and cross-connects of an L2PP connection, once its interfaces are rendered. */
  method RenderWireOverlay(book: AddressBook, vnis: Vnis.VniAllocator?, sh: Shared, i: nat, c: Connection)
    returns (over: seq<Step>, vni: u32, ok: bool)
    requires book.Valid() && (book.usePool || DistinctAddresses(book.fixed)) && (vnis != null ==> vnis.Valid())
    requires c.L2PP? && sh.kind.MeshOverlay? && ConnectionFits(sh, c)
    modifies book, book.pool, if vnis == null then {} else {vnis.bm.words}
    ensures book.Valid() && Spent(old(book.Balance()), book.Balance(), EndsOf(sh, c))
    ensures old(Vnis.NumbersOf(vnis)) <= Vnis.NumbersOf(vnis)
    ensures ok ==> vni !in old(Vnis.NumbersOf(vnis)) && vni in Vnis.NumbersOf(vnis)
    ensures ok ==> OverlayDone(PartOf(sh, i, vni, book.Assigned(), c), over)
    ensures ok <==> old(Vnis.FreeOf(vnis)) > 0 && Enough(old(book.Balance()), EndsOf(sh, c))
    ensures Vnis.FreeOf(vnis) >= old(Vnis.FreeOf(vnis)) - 1
    ensures ok ==> Vnis.FreeOf(vnis) == old(Vnis.FreeOf(vnis)) - 1
    ensures !ok ==> Messages(over) != []
  {
    assert [c.a, c.b][0] == c.a && [c.a, c.b][1] == c.b;
    ghost var taken, drawn := if vnis == null then {} else vnis.Taken(), false;
    over, vni, drawn, ok := RenderConnL2PPVxlanMesh(book, vnis, sh.service, i + 1, sh.opts, sh.specs, EndOf(c.a),
                                                    EndOf(c.b));
    if vnis != null { Vnis.DrawnIs(vnis.range, taken, vnis.Taken(), vni, drawn); }
    if ok {
      if book.usePool { book.PoolAddressesDistinct(); }
      WireOverlayDone(Ground(sh.opts, sh.specs, book.Assigned()),
                      Wire(Conn(sh.service, i + 1, vni), EndOf(c.a), EndOf(c.b)), c);
    }
  }

  lemma WireOverlayDone(g: Ground, w: Wire, c: Connection)
    requires w.Known(g.addr, g.specs) && DistinctAddresses(g.addr) && c.L2PP? && c.a.node != c.b.node
    requires w.a == EndOf(c.a) && w.b == EndOf(c.b) && forall p | p in c.Pods() :: !(TUNNEL_PREFIX <= p.name)
    ensures OverlayDone(Wired(g, w), WireSteps(g, w))
  {
    assert c.a in c.Pods() && c.b in c.Pods();
    PortHasNoTunnelName(c.a);
    PortHasNoTunnelName(c.b);
    NoFailure(g, w);
    forall x ensures x in Blocks(WireSteps(g, w)) <==> IsPartBlock(Wired(g, w), x) { WireBlocks(g, w, x); }
  }

  /** The tunnels of an L2MP connection to the hub, once its interfaces are rendered. */
  method RenderHubOverlay(book: AddressBook, sh: Shared, i: nat, c: Connection)
    returns (over: seq<Step>, ok: bool)
    requires book.Valid() && (book.usePool || DistinctAddresses(book.fixed))
    requires c.L2MP? && sh.kind.HubOverlay? && ConnectionFits(sh, c)
    modifies book, book.pool
    ensures book.Valid() && Spent(old(book.Balance()), book.Balance(), EndsOf(sh, c))
    ensures ok <==> OverlayFits(sh, c) && Enough(old(book.Balance()), EndsOf(sh, c))
    ensures ok ==> OverlayDone(PartOf(sh, i, sh.kind.vni, book.Assigned(), c), over)
    ensures !ok ==> Messages(over) != []
  {
    PortsOfFit(sh, c);
    over, ok := RenderConnL2MPVxlanHubAndSpoke(book, sh.kind.hub, Conn(sh.service, i + 1, sh.kind.vni), sh.opts,
                                               sh.specs, NodesOf(c.pods), PortsOf(c.pods), c.parms);
    if ok { HubOverlayDone(sh, i, book.Assigned(), c, over); }
  }

  lemma HubOverlayDone(sh: Shared, i: nat, addr: map<string, string>, c: Connection, over: seq<Step>)
    requires c.L2MP? && sh.kind.HubOverlay?
    requires RendersHub(over, Conn(sh.service, i + 1, sh.kind.vni), sh.opts, sh.specs, addr, sh.kind.hub,
                        NodesOf(c.pods), PortsOf(c.pods), c.parms)
    ensures OverlayDone(PartOf(sh, i, sh.kind.vni, addr, c), over)
  {}

  /** A VNI of a connection: a new number of the mesh's allocator, or the hub and spoke's own. */
  ghost predicate VniFits(kind: OverlayKind, vni: u32, before: set<u32>, now: set<u32>)
  {
    match kind
    case MeshOverlay => vni !in before && vni in now
    case HubOverlay(_, v) => vni == v
  }

  /** The endpoints of the connection's tunnels, which need addresses. */
  ghost function EndsOf(sh: Shared, c: Connection): set<string>
  {
    match c
    case L2MP(pods, _) =>
      (match sh.kind
       case MeshOverlay => MeshEnds(NodesOf(pods))
       case HubOverlay(hub, _) => HubEnds(hub, NodesOf(pods)))
    case L2PP(a, b) => if sh.kind.MeshOverlay? then {a.node, b.node} else {}
  }

  /** In a connection that was rendered, they have. */
  lemma EndsHave(sh: Shared, i: nat, vni: u32, addr: map<string, string>, c: Connection)
    requires PartValid(PartOf(sh, i, vni, addr, c))
    ensures EndsOf(sh, c) <= addr.Keys
  {
    match PartOf(sh, i, vni, addr, c)
    case Bridged(l) =>
      forall n | n in EndsOf(sh, c) ensures n in addr {
        var m := OtherEnd(sh, c, n);
        assert (n, m) in l.links;
      }
    case Wired(g, w) =>
  }

  lemma OtherEnd(sh: Shared, c: Connection, n: string) returns (m: string)
    requires c.L2MP? && n in EndsOf(sh, c)
    ensures sh.kind.MeshOverlay? ==> (n, m) in AllPairs(NodesOf(c.pods))
    ensures sh.kind.HubOverlay? ==> (n, m) in HubPairs(sh.kind.hub, NodesOf(c.pods))
  {
    var nodes := NodesOf(c.pods);
    if sh.kind.MeshOverlay? {
      assert nodes != {n} && n in nodes;
      m :| m in nodes && m != n;
    } else if n in nodes {
      m := sh.kind.hub;
    } else {
      m :| m in nodes;
    }
  }

  /** The overlay can take the connection: a hub and spoke needs an L2MP one, and a hub that is none of its nodes. */
  ghost predicate OverlayFits(sh: Shared, c: Connection)
  {
    sh.kind.HubOverlay? ==> c.L2MP? && sh.kind.hub in sh.specs && sh.kind.hub !in NodesOf(c.pods)
  }

  /** The connection's interfaces can be rendered, and its overlay can take it. */
  ghost predicate Renderable(sh: Shared, c: Connection)
  {
    (forall i | 0 <= i < |c.Pods()| :: CanRender(c.Pods()[i])) && OverlayFits(sh, c)
  }

  /** The VNIs that so many connections draw. */
  function Needed(kind: OverlayKind, n: nat): nat { if kind.MeshOverlay? then n else 0 }

  /** The overlay of a connection, by its kind; an L2PP connection cannot go over a hub and spoke. */
  method RenderOverlay(book: AddressBook, vnis: Vnis.VniAllocator?, sh: Shared, i: nat, c: Connection)
    returns (over: seq<Step>, vni: u32, ok: bool)
    requires book.Valid() && (book.usePool || DistinctAddresses(book.fixed)) && (vnis != null ==> vnis.Valid())
    requires ConnectionFits(sh, c)
    modifies book, book.pool, if vnis == null then {} else {vnis.bm.words}
    ensures book.Valid() && Spent(old(book.Balance()), book.Balance(), EndsOf(sh, c))
    ensures old(Vnis.NumbersOf(vnis)) <= Vnis.NumbersOf(vnis)
    ensures ok ==> VniFits(sh.kind, vni, old(Vnis.NumbersOf(vnis)), Vnis.NumbersOf(vnis))
    ensures ok ==> OverlayDone(PartOf(sh, i, vni, book.Assigned(), c), over)
    ensures ok <==> && OverlayFits(sh, c) && old(Vnis.FreeOf(vnis)) >= Needed(sh.kind, 1)
                    && Enough(old(book.Balance()), EndsOf(sh, c))
    ensures Vnis.FreeOf(vnis) >= old(Vnis.FreeOf(vnis)) - Needed(sh.kind, 1)
    ensures ok ==> Vnis.FreeOf(vnis) == old(Vnis.FreeOf(vnis)) - Needed(sh.kind, 1)
    ensures !ok ==> Messages(over) != []
  {
    match sh.kind
    case MeshOverlay =>
      if c.L2MP? {
        over, vni, ok := RenderMeshOverlay(book, vnis, sh, i, c);
      } else {
        over, vni, ok := RenderWireOverlay(book, vnis, sh, i, c);
      }
    case HubOverlay(hub, v) =>
      vni := v;
      if c.L2MP? {
        over, ok := RenderHubOverlay(book, sh, i, c);
      } else {
        SpentNothing(book.Balance(), EndsOf(sh, c));
        over, ok := [Fail("type not supported for L2PP")], false;
      }
  }

  /** A connection: first its interfaces at the nodes, then its overlay under a VNI that was not taken. */
  method RenderConnection(book: AddressBook, vnis: Vnis.VniAllocator?, sh: Shared, i: nat, c: Connection)
    returns (steps: seq<Step>, vni: u32, ok: bool)
    requires book.Valid() && (book.usePool || DistinctAddresses(book.fixed)) && (vnis != null ==> vnis.Valid())
    requires ConnectionFits(sh, c)
    modifies book, book.pool, if vnis == null then {} else {vnis.bm.words}
    ensures book.Valid() && Spent(old(book.Balance()), book.Balance(), EndsOf(sh, c))
    ensures old(Vnis.NumbersOf(vnis)) <= Vnis.NumbersOf(vnis)
    ensures ok ==> VniFits(sh.kind, vni, old(Vnis.NumbersOf(vnis)), Vnis.NumbersOf(vnis))
    ensures ok ==> ConnectionDone(PartOf(sh, i, vni, book.Assigned(), c), c, steps)
    ensures ok <==> && Renderable(sh, c) && old(Vnis.FreeOf(vnis)) >= Needed(sh.kind, 1)
                    && Enough(old(book.Balance()), EndsOf(sh, c))
    ensures Vnis.FreeOf(vnis) >= old(Vnis.FreeOf(vnis)) - Needed(sh.kind, 1)
    ensures ok ==> Vnis.FreeOf(vnis) == old(Vnis.FreeOf(vnis)) - Needed(sh.kind, 1)
    ensures !ok ==> Messages(steps) != []
  {
    vni := 0;
    var ports, over;
    SpentNothing(book.Balance(), EndsOf(sh, c));
    steps, ports, ok := RenderPods(c.Pods());
    if !ok { return; }
    over, vni, ok := RenderOverlay(book, vnis, sh, i, c);
    if ok { PodsThenOverlay(PartOf(sh, i, vni, book.Assigned(), c), c, over); } else { StillReported(steps, over); }
    steps := steps + over;
  }

  /** Addresses that other nodes get later do not change a connection. */
  lemma PartKeeps(sh: Shared, i: nat, vni: u32, addr: map<string, string>, addr': map<string, string>, c: Connection,
                  x: seq<KV>)
    requires PartValid(PartOf(sh, i, vni, addr, c)) && Extends(addr, addr') && DistinctAddresses(addr')
    ensures PartValid(PartOf(sh, i, vni, addr', c))
    ensures IsPartBlock(PartOf(sh, i, vni, addr, c), x) <==> IsPartBlock(PartOf(sh, i, vni, addr', c), x)
  {
    match PartOf(sh, i, vni, addr, c)
    case Bridged(l) =>
      BlocksKeep(l, addr', x);
      assert PartOf(sh, i, vni, addr', c) == Bridged(l.(addr := addr'));
    case Wired(g, w) => WireBlocksKeep(g, addr', w, x);
  }

  /** A block of the connection at a position, or of one of its interfaces. */
  ghost predicate Belongs(sh: Shared, i: nat, vni: u32, addr: map<string, string>, c: Connection, x: seq<KV>)
    requires PartValid(PartOf(sh, i, vni, addr, c))
  {
    IsPartBlock(PartOf(sh, i, vni, addr, c), x) || IsOwn(c, x)
  }

  /** The connections done so far, each under its VNI. */
  ghost predicate ServiceDone(sh: Shared, used: seq<u32>, addr: map<string, string>, conns: seq<Connection>,
                              steps: seq<Step>)
  {
    && |used| <= |conns| && (forall s | s in steps :: !s.Fail?)
    && (forall i | 0 <= i < |used| :: PartValid(PartOf(sh, i, used[i], addr, conns[i])))
    && forall x :: x in Blocks(steps) <==> InService(sh, used, addr, conns, x)
  }

  ghost predicate InService(sh: Shared, used: seq<u32>, addr: map<string, string>, conns: seq<Connection>, x: seq<KV>)
    requires |used| <= |conns| && forall i | 0 <= i < |used| :: PartValid(PartOf(sh, i, used[i], addr, conns[i]))
  {
    exists i | 0 <= i < |used| :: Belongs(sh, i, used[i], addr, conns[i], x)
  }

  lemma ServiceKeeps(sh: Shared, used: seq<u32>, addr: map<string, string>, addr': map<string, string>,
                     conns: seq<Connection>, steps: seq<Step>)
    requires ServiceDone(sh, used, addr, conns, steps) && Extends(addr, addr') && DistinctAddresses(addr')
    ensures ServiceDone(sh, used, addr', conns, steps)
  {
    forall i | 0 <= i < |used| ensures PartValid(PartOf(sh, i, used[i], addr', conns[i])) {
      PartKeeps(sh, i, used[i], addr, addr', conns[i], []);
    }
    forall x ensures InService(sh, used, addr, conns, x) <==> InService(sh, used, addr', conns, x) {
      InServiceKeeps(sh, used, addr, addr', conns, x);
    }
  }

  lemma InServiceKeeps(sh: Shared, used: seq<u32>, addr: map<string, string>, addr': map<string, string>,
                       conns: seq<Connection>, x: seq<KV>)
    requires |used| <= |conns| && Extends(addr, addr') && DistinctAddresses(addr')
    requires forall i | 0 <= i < |used| :: PartValid(PartOf(sh, i, used[i], addr, conns[i]))
    requires forall i | 0 <= i < |used| :: PartValid(PartOf(sh, i, used[i], addr', conns[i]))
    ensures InService(sh, used, addr, conns, x) <==> InService(sh, used, addr', conns, x)
  {
    forall i | 0 <= i < |used|
      ensures Belongs(sh, i, used[i], addr, conns[i], x) <==> Belongs(sh, i, used[i], addr', conns[i], x)
    {
      PartKeeps(sh, i, used[i], addr, addr', conns[i], x);
    }
  }

  lemma ServiceGrows(sh: Shared, used: seq<u32>, addr: map<string, string>, conns: seq<Connection>, steps: seq<Step>,
                     vni: u32, more: seq<Step>)
    requires ServiceDone(sh, used, addr, conns, steps) && |used| < |conns|
    requires ConnectionDone(PartOf(sh, |used|, vni, addr, conns[|used|]), conns[|used|], more)
    ensures ServiceDone(sh, used + [vni], addr, conns, steps + more)
  {
    BlocksConcat(steps, more);
    forall i | 0 <= i < |used| + 1 ensures PartValid(PartOf(sh, i, (used + [vni])[i], addr, conns[i])) {}
    forall x ensures x in Blocks(steps + more) <==> InService(sh, used + [vni], addr, conns, x) {
      InServiceGrows(sh, used, addr, conns, vni, x);
    }
  }

  lemma InServiceGrows(sh: Shared, used: seq<u32>, addr: map<string, string>, conns: seq<Connection>, vni: u32,
                       x: seq<KV>)
    requires |used| < |conns| && PartValid(PartOf(sh, |used|, vni, addr, conns[|used|]))
    requires forall i | 0 <= i < |used| :: PartValid(PartOf(sh, i, used[i], addr, conns[i]))
    requires forall i | 0 <= i < |used| + 1 :: PartValid(PartOf(sh, i, (used + [vni])[i], addr, conns[i]))
    ensures InService(sh, used + [vni], addr, conns, x) <==>
              InService(sh, used, addr, conns, x) || Belongs(sh, |used|, vni, addr, conns[|used|], x)
  {
    if InService(sh, used + [vni], addr, conns, x) { WasInService(sh, used, addr, conns, vni, x); }
    if i :| 0 <= i < |used| && Belongs(sh, i, used[i], addr, conns[i], x) {
      assert Belongs(sh, i, (used + [vni])[i], addr, conns[i], x);
    } else if Belongs(sh, |used|, vni, addr, conns[|used|], x) {
      assert Belongs(sh, |used|, (used + [vni])[|used|], addr, conns[|used|], x);
    }
  }

  lemma WasInService(sh: Shared, used: seq<u32>, addr: map<string, string>, conns: seq<Connection>, vni: u32,
                     x: seq<KV>)
    requires |used| < |conns| && PartValid(PartOf(sh, |used|, vni, addr, conns[|used|]))
    requires forall i | 0 <= i < |used| :: PartValid(PartOf(sh, i, used[i], addr, conns[i]))
    requires forall i | 0 <= i < |used| + 1 :: PartValid(PartOf(sh, i, (used + [vni])[i], addr, conns[i]))
    requires InService(sh, used + [vni], addr, conns, x)
    ensures InService(sh, used, addr, conns, x) || Belongs(sh, |used|, vni, addr, conns[|used|], x)
  {
    var i :| 0 <= i < |used| + 1 && Belongs(sh, i, (used + [vni])[i], addr, conns[i], x);
    if i < |used| { assert Belongs(sh, i, used[i], addr, conns[i], x); }
  }

  /** The VNIs of a mesh's connections are different, and were drawn since the given ones. */
  ghost predicate NewNumbers(kind: OverlayKind, used: seq<u32>, before: set<u32>, now: set<u32>)
  {
    && before <= now && (forall i | 0 <= i < |used| :: VniFits(kind, used[i], before, now))
    && (kind.MeshOverlay? ==> forall i, j | 0 <= i < j < |used| :: used[i] != used[j])
  }

  lemma NewNumbersGrow(kind: OverlayKind, used: seq<u32>, vni: u32, start: set<u32>, before: set<u32>, now: set<u32>)
    requires NewNumbers(kind, used, start, before) && before <= now && VniFits(kind, vni, before, now)
    ensures NewNumbers(kind, used + [vni], start, now)
  {}

  lemma NextConnection(sh: Shared, used: seq<u32>, addr: map<string, string>, addr': map<string, string>,
                       conns: seq<Connection>, steps: seq<Step>, vni: u32, more: seq<Step>)
    requires ServiceDone(sh, used, addr, conns, steps) && |used| < |conns| && Extends(addr, addr')
    requires DistinctAddresses(addr')
    requires ConnectionDone(PartOf(sh, |used|, vni, addr', conns[|used|]), conns[|used|], more)
    ensures ServiceDone(sh, used + [vni], addr', conns, steps + more)
  {
    ServiceKeeps(sh, used, addr, addr', conns, steps);
    ServiceGrows(sh, used, addr', conns, steps, vni, more);
  }

  /** One more connection of a service. */
  method RenderNext(book: AddressBook, vnis: Vnis.VniAllocator?, sh: Shared, conns: seq<Connection>, steps0: seq<Step>,
                    used0: seq<u32>, ghost start: set<u32>)
    returns (steps: seq<Step>, used: seq<u32>, ok: bool)
    requires book.Valid() && (book.usePool || DistinctAddresses(book.fixed)) && (vnis != null ==> vnis.Valid())
    requires |used0| < |conns| && ConnectionFits(sh, conns[|used0|])
    requires ServiceDone(sh, used0, book.Assigned(), conns, steps0)
    requires NewNumbers(sh.kind, used0, start, Vnis.NumbersOf(vnis))
    modifies book, book.pool, if vnis == null then {} else {vnis.bm.words}
    ensures book.Valid() && Spent(old(book.Balance()), book.Balance(), EndsOf(sh, conns[|used0|]))
    ensures NewNumbers(sh.kind, used, start, Vnis.NumbersOf(vnis))
    ensures ok ==> |used| == |used0| + 1 && ServiceDone(sh, used, book.Assigned(), conns, steps)
    ensures ok <==> && Renderable(sh, conns[|used0|]) && old(Vnis.FreeOf(vnis)) >= Needed(sh.kind, 1)
                    && Enough(old(book.Balance()), EndsOf(sh, conns[|used0|]))
    ensures Vnis.FreeOf(vnis) >= old(Vnis.FreeOf(vnis)) - Needed(sh.kind, 1)
    ensures ok ==> Vnis.FreeOf(vnis) == old(Vnis.FreeOf(vnis)) - Needed(sh.kind, 1)
    ensures !ok ==> Messages(steps) != []
  {
    ghost var addr, before := book.Assigned(), Vnis.NumbersOf(vnis);
    used := used0;
    var more, vni;
    more, vni, ok := RenderConnection(book, vnis, sh, |used0|, conns[|used0|]);
    if ok {
      if book.usePool { book.PoolAddressesDistinct(); }
      NextConnection(sh, used0, addr, book.Assigned(), conns, steps0, vni, more);
      NewNumbersGrow(sh.kind, used0, vni, start, before, Vnis.NumbersOf(vnis));
      used := used0 + [vni];
    } else {
      StillReported(steps0, more);
    }
    steps := steps0 + more;
  }

  /** The first connections can be rendered. */
  ghost predicate AllRenderable(sh: Shared, conns: seq<Connection>, n: nat)
    requires n <= |conns|
  {
    forall i | 0 <= i < n :: Renderable(sh, conns[i])
  }

  lemma OneMoreRenderable(sh: Shared, conns: seq<Connection>, n: nat)
    requires n < |conns|
    ensures AllRenderable(sh, conns, n + 1) <==> AllRenderable(sh, conns, n) && Renderable(sh, conns[n])
    ensures AllRenderable(sh, conns, |conns|) ==> Renderable(sh, conns[n])
  {}

  /** The endpoints of the first connections. */
  ghost function EndsTo(sh: Shared, conns: seq<Connection>, n: nat): set<string>
    requires n <= |conns|
  {
    if n == 0 then {} else EndsTo(sh, conns, n - 1) + EndsOf(sh, conns[n - 1])
  }

  lemma {:induction false} EndsToGrow(sh: Shared, conns: seq<Connection>, i: nat, n: nat)
    requires i <= n <= |conns|
    ensures EndsTo(sh, conns, i) <= EndsTo(sh, conns, n)
  {
    if i < n { EndsToGrow(sh, conns, i, n - 1); }
  }

  ghost predicate HasEnds(sh: Shared, addr: map<string, string>, c: Connection) { EndsOf(sh, c) <= addr.Keys }

  lemma {:induction false} EndsToHave(sh: Shared, addr: map<string, string>, conns: seq<Connection>, n: nat)
    requires n <= |conns| && forall i | 0 <= i < n :: HasEnds(sh, addr, conns[i])
    ensures EndsTo(sh, conns, n) <= addr.Keys
  {
    if n > 0 {
      EndsToHave(sh, addr, conns, n - 1);
      assert HasEnds(sh, addr, conns[n - 1]);
    }
  }

  lemma ServiceHasEnds(sh: Shared, used: seq<u32>, addr: map<string, string>, conns: seq<Connection>,
                       steps: seq<Step>)
    requires ServiceDone(sh, used, addr, conns, steps)
    ensures EndsTo(sh, conns, |used|) <= addr.Keys
  {
    forall i | 0 <= i < |used| ensures HasEnds(sh, addr, conns[i]) { EndsHave(sh, i, used[i], addr, conns[i]); }
    EndsToHave(sh, addr, conns, |used|);
  }

  /** What a service has spent when its first connections are rendered: there was enough. */
  ghost predicate SpentTo(sh: Shared, conns: seq<Connection>, n: nat, x: Account, y: Account)
    requires n <= |conns|
  {
    Spent(x, y, EndsTo(sh, conns, n)) && Enough(x, EndsTo(sh, conns, n)) && EndsTo(sh, conns, n) <= y.addr.Keys
  }

  lemma SpentNoneYet(sh: Shared, conns: seq<Connection>, x: Account)
    ensures SpentTo(sh, conns, 0, x, x)
  {
    SpentNothing(x, {});
    EnoughWas(x, x, {});
  }

  lemma SpentOneMore(sh: Shared, conns: seq<Connection>, n: nat, x: Account, y: Account, z: Account)
    requires n < |conns| && SpentTo(sh, conns, n, x, y) && Spent(y, z, EndsOf(sh, conns[n]))
    ensures Spent(x, z, EndsTo(sh, conns, |conns|))
    ensures Enough(x, EndsTo(sh, conns, n + 1)) <==> Enough(y, EndsOf(sh, conns[n]))
    ensures Enough(x, EndsTo(sh, conns, |conns|)) ==> Enough(y, EndsOf(sh, conns[n]))
    ensures EndsTo(sh, conns, n + 1) <= z.addr.Keys ==> SpentTo(sh, conns, n + 1, x, z)
  {
    var have, more := EndsTo(sh, conns, n), EndsOf(sh, conns[n]);
    EndsToGrow(sh, conns, n + 1, |conns|);
    SpentTwice(x, y, z, have, more);
    SpentFor(x, z, have + more, EndsTo(sh, conns, |conns|));
    SpentFor(x, y, have, have + more);
    EnoughStays(x, y, have + more);
    EnoughTogether(y, have, more);
    EnoughFor(x, have + more, EndsTo(sh, conns, |conns|));
    if have + more <= z.addr.Keys { EnoughWas(x, z, have + more); }
  }

  /** The connections of a service in order, up to the first that fails. */
  method RenderService(book: AddressBook, vnis: Vnis.VniAllocator?, sh: Shared, conns: seq<Connection>)
    returns (steps: seq<Step>, used: seq<u32>, ok: bool)
    requires book.Valid() && (book.usePool || DistinctAddresses(book.fixed)) && (vnis != null ==> vnis.Valid())
    requires forall i | 0 <= i < |conns| :: ConnectionFits(sh, conns[i])
    modifies book, book.pool, if vnis == null then {} else {vnis.bm.words}
    ensures book.Valid() && Spent(old(book.Balance()), book.Balance(), EndsTo(sh, conns, |conns|))
    ensures NewNumbers(sh.kind, used, old(Vnis.NumbersOf(vnis)), Vnis.NumbersOf(vnis))
    ensures ok ==> |used| == |conns| && ServiceDone(sh, used, book.Assigned(), conns, steps)
    ensures ok <==> && AllRenderable(sh, conns, |conns|) && old(Vnis.FreeOf(vnis)) >= Needed(sh.kind, |conns|)
                    && Enough(old(book.Balance()), EndsTo(sh, conns, |conns|))
    ensures Vnis.FreeOf(vnis) >= old(Vnis.FreeOf(vnis)) - Needed(sh.kind, |conns|)
    ensures ok ==> Vnis.FreeOf(vnis) == old(Vnis.FreeOf(vnis)) - Needed(sh.kind, |conns|)
    ensures !ok ==> Messages(steps) != []
  {
    steps, used, ok := [], [], true;
    ghost var start, free, x := Vnis.NumbersOf(vnis), Vnis.FreeOf(vnis), book.Balance();
    NoneReached(sh, conns, x, start, free);
    for i := 0 to |conns|
      invariant book.Valid() && |used| == i && ServiceDone(sh, used, book.Assigned(), conns, steps)
      invariant Reached(sh, conns, x, book.Balance(), start, Vnis.NumbersOf(vnis), free, Vnis.FreeOf(vnis), used)
    {
      steps, used, ok := RenderOneMore(book, vnis, sh, conns, steps, used, x, start, free);
      if !ok { return; }
    }
    ok := true;
  }

  /** What the first connections of a service have spent of addresses and VNIs, when they are rendered. */
  ghost predicate Reached(sh: Shared, conns: seq<Connection>, x: Account, y: Account, start: set<u32>, now: set<u32>,
                          free: nat, left: nat, used: seq<u32>)
  {
    && |used| <= |conns| && SpentTo(sh, conns, |used|, x, y) && NewNumbers(sh.kind, used, start, now)
    && AllRenderable(sh, conns, |used|) && left == free - Needed(sh.kind, |used|)
  }

  lemma NoneReached(sh: Shared, conns: seq<Connection>, x: Account, start: set<u32>, free: nat)
    ensures Reached(sh, conns, x, x, start, start, free, free, [])
  {
    SpentNoneYet(sh, conns, x);
  }

  lemma OneMoreReached(sh: Shared, conns: seq<Connection>, x: Account, y: Account, z: Account, start: set<u32>,
                       before: set<u32>, now: set<u32>, free: nat, left: nat, used: seq<u32>, left': nat,
                       used': seq<u32>)
    requires Reached(sh, conns, x, y, start, before, free, left, used) && |used| < |conns| && |used'| == |used| + 1
    requires Spent(y, z, EndsOf(sh, conns[|used|])) && EndsTo(sh, conns, |used'|) <= z.addr.Keys
    requires NewNumbers(sh.kind, used', start, now) && Renderable(sh, conns[|used|])
    requires left' == left - Needed(sh.kind, 1)
    ensures Reached(sh, conns, x, z, start, now, free, left', used')
  {
    OneMoreRenderable(sh, conns, |used|);
    SpentOneMore(sh, conns, |used|, x, y, z);
  }

  lemma NoMoreReached(sh: Shared, conns: seq<Connection>, x: Account, y: Account, z: Account, start: set<u32>,
                      before: set<u32>, free: nat, left: nat, used: seq<u32>)
    requires Reached(sh, conns, x, y, start, before, free, left, used) && |used| < |conns|
    requires Spent(y, z, EndsOf(sh, conns[|used|]))
    requires !(Renderable(sh, conns[|used|]) && left >= Needed(sh.kind, 1) && Enough(y, EndsOf(sh, conns[|used|])))
    ensures Spent(x, z, EndsTo(sh, conns, |conns|))
    ensures !(&& AllRenderable(sh, conns, |conns|) && free >= Needed(sh.kind, |conns|)
              && Enough(x, EndsTo(sh, conns, |conns|)))
  {
    OneMoreRenderable(sh, conns, |used|);
    SpentOneMore(sh, conns, |used|, x, y, z);
  }

  /** One more connection, counted. */
  method RenderOneMore(book: AddressBook, vnis: Vnis.VniAllocator?, sh: Shared, conns: seq<Connection>,
                       steps0: seq<Step>, used0: seq<u32>, ghost x: Account, ghost start: set<u32>, ghost free: nat)
    returns (steps: seq<Step>, used: seq<u32>, ok: bool)
    requires book.Valid() && (book.usePool || DistinctAddresses(book.fixed)) && (vnis != null ==> vnis.Valid())
    requires |used0| < |conns| && ConnectionFits(sh, conns[|used0|])
    requires ServiceDone(sh, used0, book.Assigned(), conns, steps0)
    requires Reached(sh, conns, x, book.Balance(), start, Vnis.NumbersOf(vnis), free, Vnis.FreeOf(vnis), used0)
    modifies book, book.pool, if vnis == null then {} else {vnis.bm.words}
    ensures book.Valid() && NewNumbers(sh.kind, used, start, Vnis.NumbersOf(vnis))
    ensures ok ==> |used| == |used0| + 1 && ServiceDone(sh, used, book.Assigned(), conns, steps)
    ensures ok ==> Reached(sh, conns, x, book.Balance(), start, Vnis.NumbersOf(vnis), free, Vnis.FreeOf(vnis), used)
    ensures !ok ==> Spent(x, book.Balance(), EndsTo(sh, conns, |conns|)) && Messages(steps) != []
    ensures !ok ==> Vnis.FreeOf(vnis) >= free - Needed(sh.kind, |conns|)
    ensures !ok ==> !(&& AllRenderable(sh, conns, |conns|) && free >= Needed(sh.kind, |conns|)
                      && Enough(x, EndsTo(sh, conns, |conns|)))
  {
    ghost var y, before, left := book.Balance(), Vnis.NumbersOf(vnis), Vnis.FreeOf(vnis);
    steps, used, ok := RenderNext(book, vnis, sh, conns, steps0, used0, start);
    if ok {
      ServiceHasEnds(sh, used, book.Assigned(), conns, steps);
      OneMoreReached(sh, conns, x, y, book.Balance(), start, before, Vnis.NumbersOf(vnis), free, left, used0,
                     Vnis.FreeOf(vnis), used);
    } else {
      NoMoreReached(sh, conns, x, y, book.Balance(), start, before, free, left, used0);
    }
  }

  /** A service that was rendered: its connections and their VNIs. */
  datatype Run = Run(sh: Shared, used: seq<u32>, conns: seq<Connection>)

  /** Connections that were rendered with the given addresses. */
  ghost predicate RunsDone(runs: seq<Run>, addr: map<string, string>)
  {
    forall s | 0 <= s < |runs| ::
      && |runs[s].used| == |runs[s].conns|
      && forall i | 0 <= i < |runs[s].conns| ::
           PartValid(PartOf(runs[s].sh, i, runs[s].used[i], addr, runs[s].conns[i]))
  }

  ghost predicate Within(runs: seq<Run>, s: int, i: int)
  {
    0 <= s < |runs| && 0 <= i < |runs[s].conns| && |runs[s].used| == |runs[s].conns|
  }

  ghost function PartAt(runs: seq<Run>, addr: map<string, string>, s: nat, i: nat): Part
    requires Within(runs, s, i)
  {
    PartOf(runs[s].sh, i, runs[s].used[i], addr, runs[s].conns[i])
  }

  /** All connections of the services. */
  ghost function PartsOf(runs: seq<Run>, addr: map<string, string>): iset<Part>
  {
    iset s, i | Within(runs, s, i) :: PartAt(runs, addr, s, i)
  }

  /** Services of different names whose connections have different VNIs, and interfaces that are used once. */
  ghost predicate RunsApart(runs: seq<Run>)
  {
    && (forall s, t | 0 <= s < t < |runs| :: runs[s].sh.service != runs[t].sh.service)
    && NamesPlain(runs)
    && (forall s, i, t, j | Within(runs, s, i) && Within(runs, t, j) && (s, i) != (t, j) ::
          && runs[s].used[i] != runs[t].used[j]
          && PortsDiffer(runs[s].conns[i], runs[t].conns[j]))
  }

  ghost predicate PortsDiffer(c: Connection, d: Connection)
  {
    forall p, q | p in c.Pods() && q in d.Pods() :: p.AsPort() != q.AsPort()
  }

  /** No pod has an interface under the name of a generated tunnel. */
  ghost predicate NamesPlain(runs: seq<Run>)
  {
    forall s, i | Within(runs, s, i) :: forall p | p in runs[s].conns[i].Pods() :: !(TUNNEL_PREFIX <= p.name)
  }

  lemma MeshNamesEndInVni(conn: Conn, opts: Options, specs: NodeSpecs, addr: map<string, string>, nodes: set<string>,
                          ports: seq<Port>, parms: BDParms)
    ensures NamesEndInVni(MeshLayout(conn, opts, specs, addr, nodes, ports, parms))
  {
    var l := MeshLayout(conn, opts, specs, addr, nodes, ports, parms);
    forall a, b ensures EndsInVni(l.name(a, b), l.conn.vni) {
      var pre := TUNNEL_PREFIX + "MESH_NET_SRVC_" + Label(conn) + "_FROM_" + a + "_TO_" + b;
      assert l.name(a, b) == pre + ("_VNI_" + Decimal(conn.vni));
    }
  }

  lemma EndNameEndsInVni(conn: Conn, hub: string, a: string, b: string)
    ensures EndsInVni(EndName(conn, hub, a, b), conn.vni)
  {
    var from, to := if a == hub then "_FROM_HUB_" else "_FROM_SPOKE_", if a == hub then "_TO_SPOKE_" else "_TO_HUB_";
    assert EndName(conn, hub, a, b)
        == (TUNNEL_PREFIX + "NET_SRVC_" + Label(conn) + from + a + to + b) + ("_VNI_" + Decimal(conn.vni));
  }

  lemma HubNamesEndInVni(conn: Conn, opts: Options, specs: NodeSpecs, addr: map<string, string>, hub: string,
                         spokes: set<string>, ports: seq<Port>, parms: BDParms)
    ensures NamesEndInVni(HubLayout(conn, opts, specs, addr, hub, spokes, ports, parms))
  {
    var l := HubLayout(conn, opts, specs, addr, hub, spokes, ports, parms);
    forall a, b ensures EndsInVni(l.name(a, b), l.conn.vni) {
      EndNameEndsInVni(conn, hub, a, b);
    }
  }

  lemma PortOfPod(sh: Shared, i: nat, vni: u32, addr: map<string, string>, c: Connection, port: Port)
    requires HasPort(PartOf(sh, i, vni, addr, c), port)
    ensures exists p :: p in c.Pods() && port == p.AsPort()
  {
    match c
    case L2MP(pods, _) =>
      var k :| 0 <= k < |pods| && port == PortsOf(pods)[k];
      assert pods[k] in c.Pods();
    case L2PP(a, b) => assert a in c.Pods() && b in c.Pods();
  }

  lemma PartNames(sh: Shared, i: nat, vni: u32, addr: map<string, string>, c: Connection)
    ensures var p := PartOf(sh, i, vni, addr, c);
            ConnOf(p) == Conn(sh.service, i + 1, vni) && (p.Bridged? ==> NamesEndInVni(p.layout))
  {
    var conn := Conn(sh.service, i + 1, vni);
    if c.L2MP? {
      match sh.kind
      case MeshOverlay => MeshNamesEndInVni(conn, sh.opts, sh.specs, addr, NodesOf(c.pods), PortsOf(c.pods), c.parms);
      case HubOverlay(hub, _) =>
        HubNamesEndInVni(conn, sh.opts, sh.specs, addr, hub, NodesOf(c.pods), PortsOf(c.pods), c.parms);
    }
  }

  lemma RunPartsDistinct(runs: seq<Run>, addr: map<string, string>, s: nat, i: nat, t: nat, j: nat)
    requires RunsApart(runs) && Within(runs, s, i) && Within(runs, t, j) && (s, i) != (t, j)
    ensures DistinctParts(PartAt(runs, addr, s, i), PartAt(runs, addr, t, j))
  {
    var p, q := PartAt(runs, addr, s, i), PartAt(runs, addr, t, j);
    PartNames(runs[s].sh, i, runs[s].used[i], addr, runs[s].conns[i]);
    PartNames(runs[t].sh, j, runs[t].used[j], addr, runs[t].conns[j]);
    forall port | HasPort(p, port) ensures !HasPort(q, port) {
      PortOfPod(runs[s].sh, i, runs[s].used[i], addr, runs[s].conns[i], port);
      if HasPort(q, port) { PortOfPod(runs[t].sh, j, runs[t].used[j], addr, runs[t].conns[j], port); }
    }
    assert s != t ==> runs[s].sh.service != runs[t].sh.service;
  }

  /** The blocks of all services' connections and interfaces, and otherwise harmless ones. */
  ghost predicate RunsBlocks(runs: seq<Run>, addr: map<string, string>, all: seq<seq<KV>>)
    requires RunsDone(runs, addr)
  {
    && (forall s, x | 0 <= s < |runs| && InService(runs[s].sh, runs[s].used, addr, runs[s].conns, x) :: x in all)
    && (forall x | x in all ::
          || (exists s | 0 <= s < |runs| :: InService(runs[s].sh, runs[s].used, addr, runs[s].conns, x))
          || (PartsAreValid(PartsOf(runs, addr)) && Harmless(x, PartsOf(runs, addr))))
  }

  ghost predicate PartsAreValid(ps: iset<Part>) { forall p | p in ps :: PartValid(p) }

  lemma RunPartsValid(runs: seq<Run>, addr: map<string, string>)
    requires RunsDone(runs, addr)
    ensures PartsAreValid(PartsOf(runs, addr))
  {
    forall p | p in PartsOf(runs, addr) ensures PartValid(p) {
      var s, i :| Within(runs, s, i) && p == PartAt(runs, addr, s, i);
    }
  }

  lemma RunPartsBeside(runs: seq<Run>, addr: map<string, string>, p: Part, q: Part, x: seq<KV>)
    requires RunsDone(runs, addr) && RunsApart(runs) && PartsAreValid(PartsOf(runs, addr))
    requires p in PartsOf(runs, addr) && q in PartsOf(runs, addr) && p != q && IsPartBlock(q, x)
    ensures PartBeside(x, p) && PartUnlike(Own(x), p)
  {
    var s, i :| Within(runs, s, i) && p == PartAt(runs, addr, s, i);
    var t, j :| Within(runs, t, j) && q == PartAt(runs, addr, t, j);
    RunPartsDistinct(runs, addr, s, i, t, j);
    DistinctPartsApart(p, q, x);
  }

  lemma OwnIsHarmless(runs: seq<Run>, addr: map<string, string>, s: nat, i: nat, x: seq<KV>)
    requires RunsDone(runs, addr) && NamesPlain(runs) && PartsAreValid(PartsOf(runs, addr)) && Within(runs, s, i)
    requires IsOwn(runs[s].conns[i], x)
    ensures Harmless(x, PartsOf(runs, addr))
  {
    var c := runs[s].conns[i];
    EntriesArePlain(c.Pods());
    var kv :| kv in EntriesOf(c.Pods()) && x == [kv];
    forall p | p in PartsOf(runs, addr) ensures PartBeside(x, p) && PartUnlike(Own(x), p) { PlainIsHarmless(x, p); }
  }

  /** The services' connections do not overwrite each other. */
  lemma RunsTogether(runs: seq<Run>, addr: map<string, string>, all: seq<seq<KV>>)
    requires RunsDone(runs, addr) && RunsApart(runs) && RunsBlocks(runs, addr, all)
    ensures Together(PartsOf(runs, addr), all)
  {
    var ps := PartsOf(runs, addr);
    RunPartsValid(runs, addr);
    forall p, q, x | p in ps && q in ps && p != q && IsPartBlock(q, x) ensures PartBeside(x, p) {
      RunPartsBeside(runs, addr, p, q, x);
    }
    forall p, x | p in ps && IsPartBlock(p, x) ensures x in all { PartInAll(runs, addr, all, p, x); }
    forall x | x in all ensures (exists p :: p in ps && IsPartBlock(p, x)) || Harmless(x, ps) {
      BlockOfPart(runs, addr, all, x);
    }
  }

  /** No connection has a tunnel like another's. */
  lemma RunIsApart(runs: seq<Run>, addr: map<string, string>, p: Part)
    requires RunsDone(runs, addr) && RunsApart(runs) && PartsAreValid(PartsOf(runs, addr)) && p in PartsOf(runs, addr)
    ensures ApartFrom(PartsOf(runs, addr), p)
  {
    forall q, x | q in PartsOf(runs, addr) && q != p && IsPartBlock(q, x) ensures PartUnlike(Own(x), p) {
      RunPartsBeside(runs, addr, p, q, x);
    }
  }

  lemma PartInAll(runs: seq<Run>, addr: map<string, string>, all: seq<seq<KV>>, p: Part, x: seq<KV>)
    requires RunsDone(runs, addr) && RunsBlocks(runs, addr, all) && p in PartsOf(runs, addr) && PartValid(p)
    requires IsPartBlock(p, x)
    ensures x in all
  {
    var s, i :| Within(runs, s, i) && p == PartAt(runs, addr, s, i);
    assert Belongs(runs[s].sh, i, runs[s].used[i], addr, runs[s].conns[i], x);
    assert InService(runs[s].sh, runs[s].used, addr, runs[s].conns, x);
  }

  lemma BlockOfPart(runs: seq<Run>, addr: map<string, string>, all: seq<seq<KV>>, x: seq<KV>)
    requires RunsDone(runs, addr) && NamesPlain(runs) && RunsBlocks(runs, addr, all) && x in all
    requires PartsAreValid(PartsOf(runs, addr))
    ensures (exists p :: p in PartsOf(runs, addr) && IsPartBlock(p, x)) || Harmless(x, PartsOf(runs, addr))
  {
    if s :| 0 <= s < |runs| && InService(runs[s].sh, runs[s].used, addr, runs[s].conns, x) {
      var i :| 0 <= i < |runs[s].used| && Belongs(runs[s].sh, i, runs[s].used[i], addr, runs[s].conns[i], x);
      if IsOwn(runs[s].conns[i], x) {
        OwnIsHarmless(runs, addr, s, i, x);
      } else {
        assert Within(runs, s, i);
        assert PartAt(runs, addr, s, i) in PartsOf(runs, addr);
      }
    }
  }

  /**
   * With any number of services, each with any number of mesh and L2PP connections: a frame from a pod interface of a
   * mesh connection reaches the other interfaces of that connection exactly once each, and nothing else.
   */
  lemma EveryMeshFloodsOnce(m: map<Key, KV>, runs: seq<Run>, addr: map<string, string>, all: seq<seq<KV>>, s: nat,
                            i: nat, src: Port)
    requires RunsDone(runs, addr) && RunsApart(runs) && RunsBlocks(runs, addr, all) && Within(runs, s, i)
    requires var c := runs[s].conns[i]; c.L2MP? && c.parms.flood && src in PortsOf(c.pods)
    requires runs[s].sh.kind.MeshOverlay?
    requires Foreign(m, PartAt(runs, addr, s, i).layout)
    ensures FloodsOnce(LayBlocks(m, all), PortsOf(runs[s].conns[i].pods), src, 2)
  {
    var p := PartAt(runs, addr, s, i);
    RunsTogether(runs, addr, all);
    RunIsApart(runs, addr, p);
    CoexistingRealize(m, PartsOf(runs, addr), all, p.layout);
    FabricPods(p.layout);
    MeshFloodsOnce(LayBlocks(m, all), p.layout.ToFabric(), src);
  }

  /** The end of an L2PP connection. */
  function EndAt(c: Connection, x: nat): PodIf
    requires c.L2PP?
  {
    if x == 0 then c.a else c.b
  }

  /** Likewise a frame from an end of an L2PP connection arrives at the other end, by one way only, and nowhere else. */
  lemma EveryWireMatches(m: map<Key, KV>, runs: seq<Run>, addr: map<string, string>, all: seq<seq<KV>>, s: nat, i: nat,
                         x: nat, t: seq<Port>, dst: Port)
    requires RunsDone(runs, addr) && RunsApart(runs) && RunsBlocks(runs, addr, all) && Within(runs, s, i) && x < 2
    requires runs[s].conns[i].L2PP?
    requires PartForeign(m, PartAt(runs, addr, s, i))
    ensures var c, w := runs[s].conns[i], PartAt(runs, addr, s, i).wire;
            Arrives(LayBlocks(m, all), t, EndAt(c, x).AsPort(), dst)
            <==> t == [EndAt(c, x).AsPort(), w.TunnelPort(1 - x)] && dst == EndAt(c, 1 - x).AsPort()
  {
    var p := PartAt(runs, addr, s, i);
    RunsTogether(runs, addr, all);
    RunIsApart(runs, addr, p);
    CoexistingMatch(m, PartsOf(runs, addr), all, p.ground, p.wire, x, t, dst);
  }

  /** So whatever a frame from an end arrives at is the other end, and it does arrive there. */
  lemma EveryWireReaches(m: map<Key, KV>, runs: seq<Run>, addr: map<string, string>, all: seq<seq<KV>>, s: nat, i: nat,
                         x: nat, dst: Port)
    requires RunsDone(runs, addr) && RunsApart(runs) && RunsBlocks(runs, addr, all) && Within(runs, s, i) && x < 2
    requires runs[s].conns[i].L2PP?
    requires PartForeign(m, PartAt(runs, addr, s, i))
    ensures var c := runs[s].conns[i];
            Reaches(LayBlocks(m, all), EndAt(c, x).AsPort(), dst) <==> dst == EndAt(c, 1 - x).AsPort()
  {
    var src, w := EndAt(runs[s].conns[i], x).AsPort(), PartAt(runs, addr, s, i).wire;
    if t :| Arrives(LayBlocks(m, all), t, src, dst) { EveryWireMatches(m, runs, addr, all, s, i, x, t, dst); }
    EveryWireMatches(m, runs, addr, all, s, i, x, [src, w.TunnelPort(1 - x)], dst);
  }

  ghost predicate BlockTyped(x: seq<KV>) { forall kv | kv in x :: TypedByKey(kv) }

  /** The interfaces that the nodes have of themselves: no tunnels, and nothing but interfaces. */
  ghost predicate Hardware(m: map<Key, KV>)
  {
    forall k | k in m :: k.InterfaceKey? && m[k].body.InterfaceBody? && m[k].body.iface.tunnel.NoTunnel?
  }

  /** They interfere with no connection. */
  lemma HardwareIsForeign(m: map<Key, KV>, p: Part)
    requires Hardware(m) && PartValid(p)
    ensures PartForeign(m, p)
  {
    forall q ensures !IsTunnel(m, q) {}
    forall n, name ensures !HasBridge(m, n, name) {}
  }

  /** The connection's Ethernet interfaces are among those of the nodes. */
  ghost predicate EthernetIn(m: map<Key, KV>, c: Connection)
  {
    forall p | p in c.Pods() && p.kind.EthernetPod? :: InterfaceKey(p.node, p.name) in m
  }

  /** An interface of a rendered connection has its key among the blocks, or its node has it. */
  lemma PortHasKey(m: map<Key, KV>, runs: seq<Run>, addr: map<string, string>, all: seq<seq<KV>>, s: nat, i: nat,
                   p: PodIf)
    requires RunsDone(runs, addr) && RunsBlocks(runs, addr, all) && Within(runs, s, i)
    requires p in runs[s].conns[i].Pods() && EthernetIn(m, runs[s].conns[i])
    ensures InterfaceKey(p.node, p.SwitchName()) in LayBlocks(m, all)
  {
    var k := InterfaceKey(p.node, p.SwitchName());
    LayBlocksFrom(m, all, k);
    if !p.kind.EthernetPod? {
      var kv := SwitchSideOf(runs[s].conns[i].Pods(), p);
      OwnIsBlock(runs, addr, all, s, i, kv);
      OwnOne(kv);
    }
  }

  /** The entry of an interface at the vswitch is one of its connection's own. */
  lemma SwitchSideOf(pods: seq<PodIf>, p: PodIf) returns (kv: KV)
    requires p in pods && !p.kind.EthernetPod?
    ensures kv in EntriesOf(pods) && kv.key == InterfaceKey(p.node, p.SwitchName())
  {
    SwitchSideIs(p);
    kv :| IsSwitchSide(p, kv) && kv.key == InterfaceKey(p.node, p.SwitchName());
    PodEntriesAre(p, kv);
    EntriesAre(pods, kv);
  }

  lemma OwnIsBlock(runs: seq<Run>, addr: map<string, string>, all: seq<seq<KV>>, s: nat, i: nat, kv: KV)
    requires RunsDone(runs, addr) && RunsBlocks(runs, addr, all) && Within(runs, s, i)
    requires kv in EntriesOf(runs[s].conns[i].Pods())
    ensures [kv] in all
  {
    var c := runs[s].conns[i];
    assert IsOwn(c, [kv]) && Belongs(runs[s].sh, i, runs[s].used[i], addr, c, [kv]);
    assert InService(runs[s].sh, runs[s].used, addr, runs[s].conns, [kv]);
  }

  /** So every interface of a rendered connection is there, if all blocks are well typed and it is no tunnel. */
  lemma PortAttached(m: map<Key, KV>, runs: seq<Run>, addr: map<string, string>, all: seq<seq<KV>>, s: nat, i: nat,
                     p: PodIf)
    requires RunsDone(runs, addr) && RunsBlocks(runs, addr, all) && Within(runs, s, i) && Hardware(m)
    requires p in runs[s].conns[i].Pods() && EthernetIn(m, runs[s].conns[i])
    requires (forall x | x in all :: BlockTyped(x)) && !IsTunnel(LayBlocks(m, all), p.AsPort())
    ensures Attached(LayBlocks(m, all), p.AsPort())
  {
    var k := InterfaceKey(p.node, p.SwitchName());
    PortHasKey(m, runs, addr, all, s, i, p);
    LayBlocksFrom(m, all, k);
    if x :| x in all && k in Own(x) && LayBlocks(m, all)[k] == Own(x)[k] { OwnKeys(x, k); }
  }

  lemma PodHasPort(sh: Shared, i: nat, vni: u32, addr: map<string, string>, c: Connection, p: PodIf)
    requires p in c.Pods()
    ensures HasPort(PartOf(sh, i, vni, addr, c), p.AsPort())
  {
    if c.L2MP? {
      var k :| 0 <= k < |c.pods| && c.pods[k] == p;
      assert PortsOf(c.pods)[k] == p.AsPort();
    }
  }

  /** All interfaces of a rendered connection are there. */
  lemma PortsAttached(m: map<Key, KV>, runs: seq<Run>, addr: map<string, string>, all: seq<seq<KV>>, s: nat, i: nat,
                      p: PodIf)
    requires RunsDone(runs, addr) && RunsBlocks(runs, addr, all) && Together(PartsOf(runs, addr), all)
    requires Within(runs, s, i) && Hardware(m) && EthernetIn(m, runs[s].conns[i]) && p in runs[s].conns[i].Pods()
    requires forall x | x in all :: BlockTyped(x)
    ensures Attached(LayBlocks(m, all), p.AsPort())
  {
    var part := PartAt(runs, addr, s, i);
    HardwareIsForeign(m, part);
    PodHasPort(runs[s].sh, i, runs[s].used[i], addr, runs[s].conns[i], p);
    PortIsNoTunnel(m, PartsOf(runs, addr), all, part, p.AsPort());
    PortAttached(m, runs, addr, all, s, i, p);
  }

  lemma PartBlockTyped(p: Part, x: seq<KV>, kv: KV)
    requires PartValid(p) && IsPartBlock(p, x) && kv in x
    ensures TypedByKey(kv)
  {
    match p
    case Bridged(l) =>
      if a, b :| (a, b) in l.links && x == l.RouteBlock(a, b) { RouteBlockTyped(l, a, b, kv); }
    case Wired(g, w) =>
      var i := if IsEndBlock(g, w, 0, x) then 0 else 1;
      var n, o := w.From(i).node, w.To(i).node;
      if x == LoopbackAndRoutes(g.opts, g.specs, n, o, g.addr[n], g.addr[o]) {
        RoutesTyped(g.opts, g.specs, n, o, g.addr[n], g.addr[o], kv);
      }
  }

  lemma RouteBlockTyped(l: Layout, a: string, b: string, kv: KV)
    requires l.Valid() && (a, b) in l.links && kv in l.RouteBlock(a, b)
    ensures TypedByKey(kv)
  {
    RoutesTyped(l.opts, l.specs, a, b, l.addr[a], l.addr[b], kv);
  }

  lemma RoutesTyped(o: Options, specs: NodeSpecs, from: string, to: string, fromAddr: string, toAddr: string, kv: KV)
    requires from in specs && to in specs && kv in LoopbackAndRoutes(o, specs, from, to, fromAddr, toAddr)
    ensures TypedByKey(kv)
  {
    if kv != LoopbackEntry(o, from, StripSlash(fromAddr)) {
      RoutesAre(o, from, to, StripSlash(toAddr), specs[from], specs[to], kv);
    }
  }

  /** The steps of a service that was rendered are well typed, as a transaction needs them. */
  lemma ServiceIsTyped(sh: Shared, used: seq<u32>, addr: map<string, string>, conns: seq<Connection>, steps: seq<Step>)
    requires ServiceDone(sh, used, addr, conns, steps)
    requires forall i | 0 <= i < |used| :: forall p | p in conns[i].Pods() :: !(TUNNEL_PREFIX <= p.name)
    ensures PlanTyped(Plan(true, steps))
  {
    forall s | s in steps ensures WellTyped(s) {
      InBlocks(steps, s);
      assert InService(sh, used, addr, conns, StepEntries(s));
      var i :| 0 <= i < |used| && Belongs(sh, i, used[i], addr, conns[i], StepEntries(s));
      forall kv | kv in StepEntries(s) ensures TypedByKey(kv) {
        BelongsTyped(sh, i, used[i], addr, conns[i], StepEntries(s), kv);
      }
      assert s.Add? ==> s.kv in StepEntries(s);
    }
  }

  lemma BelongsTyped(sh: Shared, i: nat, vni: u32, addr: map<string, string>, c: Connection, x: seq<KV>, kv: KV)
    requires PartValid(PartOf(sh, i, vni, addr, c)) && Belongs(sh, i, vni, addr, c, x) && kv in x
    requires forall p | p in c.Pods() :: !(TUNNEL_PREFIX <= p.name)
    ensures TypedByKey(kv)
  {
    if IsOwn(c, x) {
      EntriesArePlain(c.Pods());
    } else {
      PartBlockTyped(PartOf(sh, i, vni, addr, c), x, kv);
    }
  }

  lemma {:induction false} InBlocks(steps: seq<Step>, s: Step)
    requires s in steps
    ensures StepEntries(s) in Blocks(steps)
    decreases steps
  {
    if s != steps[0] { InBlocks(steps[1..], s); }
  }

  datatype ServiceSpec = ServiceSpec(name: string, conns: seq<Connection>)

  /** What all services over an overlay share. */
  datatype Common = Common(opts: Options, specs: NodeSpecs, kind: OverlayKind)

  function SharedBy(sh: Common, service: string): Shared { Shared(service, sh.opts, sh.specs, sh.kind) }

  ghost predicate SpecsFit(sh: Common, services: seq<ServiceSpec>)
  {
    forall k, i | 0 <= k < |services| && 0 <= i < |services[k].conns| ::
      ConnectionFits(SharedBy(sh, services[k].name), services[k].conns[i])
  }

  /**
   * Each service was rendered in full, as the run at some position, or reports a failure; it is known which
   * service each run is of.
   */
  ghost predicate ServicesDone(sh: Common, services: seq<ServiceSpec>, addr: map<string, string>,
                               steps: seq<seq<Step>>, runs: seq<Run>, whose: seq<nat>)
  {
    && |steps| <= |services| && |runs| == |whose|
    && (forall k | 0 <= k < |steps| :: k in whose || Messages(steps[k]) != [])
    && (forall r, q | 0 <= r < q < |whose| :: whose[r] < whose[q])
    && forall r | 0 <= r < |runs| ::
         && whose[r] < |steps| && runs[r].sh == SharedBy(sh, services[whose[r]].name)
         && runs[r].conns == services[whose[r]].conns && |runs[r].used| == |runs[r].conns|
         && ServiceDone(runs[r].sh, runs[r].used, addr, runs[r].conns, steps[whose[r]])
  }

  /** The VNIs of all runs are different and taken. */
  ghost predicate AllNumbers(runs: seq<Run>, now: set<u32>)
  {
    && (forall s, i | 0 <= s < |runs| && 0 <= i < |runs[s].used| :: runs[s].used[i] in now)
    && (forall s, i, t, j | 0 <= s < |runs| && 0 <= i < |runs[s].used| && 0 <= t < |runs| && 0 <= j < |runs[t].used| &&
          (s, i) != (t, j) :: runs[s].used[i] != runs[t].used[j])
  }

  lemma AllNumbersGrow(runs: seq<Run>, r: Run, before: set<u32>, now: set<u32>)
    requires AllNumbers(runs, before) && NewNumbers(MeshOverlay, r.used, before, now)
    ensures AllNumbers(runs, now) && AllNumbers(runs + [r], now)
  {
    var all := runs + [r];
    forall s, i, t, j
      | 0 <= s < |all| && 0 <= i < |all[s].used| && 0 <= t < |all| && 0 <= j < |all[t].used| && (s, i) != (t, j)
      ensures all[s].used[i] != all[t].used[j]
    {
      if s < |runs| { assert runs[s].used[i] in before; }
      if t < |runs| { assert runs[t].used[j] in before; }
    }
  }

  lemma ServicesKeep(sh: Common, services: seq<ServiceSpec>, addr: map<string, string>, addr': map<string, string>,
                     steps: seq<seq<Step>>, runs: seq<Run>, whose: seq<nat>, more: seq<Step>)
    requires ServicesDone(sh, services, addr, steps, runs, whose) && |steps| < |services|
    requires Extends(addr, addr') && DistinctAddresses(addr') && Messages(more) != []
    ensures ServicesDone(sh, services, addr', steps + [more], runs, whose)
  {
    forall r | 0 <= r < |runs|
      ensures ServiceDone(runs[r].sh, runs[r].used, addr', runs[r].conns, (steps + [more])[whose[r]])
    {
      ServiceKeeps(runs[r].sh, runs[r].used, addr, addr', runs[r].conns, steps[whose[r]]);
    }
  }

  lemma ServicesGrow(sh: Common, services: seq<ServiceSpec>, addr: map<string, string>, addr': map<string, string>,
                     steps: seq<seq<Step>>, runs: seq<Run>, whose: seq<nat>, more: seq<Step>, r: Run)
    requires ServicesDone(sh, services, addr, steps, runs, whose) && |steps| < |services|
    requires Extends(addr, addr') && DistinctAddresses(addr')
    requires r.sh == SharedBy(sh, services[|steps|].name) && r.conns == services[|steps|].conns
    requires |r.used| == |r.conns| && ServiceDone(r.sh, r.used, addr', r.conns, more)
    ensures ServicesDone(sh, services, addr', steps + [more], runs + [r], whose + [|steps|])
  {
    var steps', runs', whose' := steps + [more], runs + [r], whose + [|steps|];
    forall k | 0 <= k < |steps'| ensures k in whose' || Messages(steps'[k]) != [] {
      if k == |steps| { assert whose'[|whose|] == k; } else if k in whose { assert k in whose'; }
    }
    forall q | 0 <= q < |runs'|
      ensures ServiceDone(runs'[q].sh, runs'[q].used, addr', runs'[q].conns, steps'[whose'[q]])
    {
      if q < |runs| { ServiceKeeps(runs[q].sh, runs[q].used, addr, addr', runs[q].conns, steps[whose[q]]); }
    }
  }

  /** All connections of the runs are under the one VNI of a hub and spoke. */
  ghost predicate AllUse(runs: seq<Run>, vni: u32)
  {
    forall s, i | 0 <= s < |runs| && 0 <= i < |runs[s].used| :: runs[s].used[i] == vni
  }

  /** The VNIs of the runs: all different and taken in a mesh, all the same in a hub and spoke. */
  ghost predicate NumbersFit(kind: OverlayKind, runs: seq<Run>, now: set<u32>)
  {
    match kind
    case MeshOverlay => AllNumbers(runs, now)
    case HubOverlay(_, vni) => AllUse(runs, vni)
  }

  lemma NumbersFitMore(kind: OverlayKind, runs: seq<Run>, r: Run, before: set<u32>, now: set<u32>)
    requires NumbersFit(kind, runs, before) && NewNumbers(kind, r.used, before, now)
    ensures NumbersFit(kind, runs, now) && NumbersFit(kind, runs + [r], now)
  {
    match kind
    case MeshOverlay => AllNumbersGrow(runs, r, before, now);
    case HubOverlay(_, vni) =>
      forall i | 0 <= i < |r.used| ensures r.used[i] == vni { assert VniFits(kind, r.used[i], before, now); }
  }

  /** Renders one more service; if it fails, it is not among the runs. */
  method RenderNextService(book: AddressBook, vnis: Vnis.VniAllocator?, sh: Common, services: seq<ServiceSpec>,
                           steps0: seq<seq<Step>>, runs0: seq<Run>, whose0: seq<nat>)
    returns (steps: seq<seq<Step>>, runs: seq<Run>, whose: seq<nat>, rendered: bool)
    requires book.Valid() && (book.usePool || DistinctAddresses(book.fixed)) && (vnis != null ==> vnis.Valid())
    requires SpecsFit(sh, services) && |steps0| < |services|
    requires ServicesDone(sh, services, book.Assigned(), steps0, runs0, whose0)
    requires NumbersFit(sh.kind, runs0, Vnis.NumbersOf(vnis))
    modifies book, book.pool, if vnis == null then {} else {vnis.bm.words}
    ensures book.Valid() && |steps| == |steps0| + 1
    ensures ServicesDone(sh, services, book.Assigned(), steps, runs, whose)
    ensures NumbersFit(sh.kind, runs, Vnis.NumbersOf(vnis))
    ensures |runs| == |runs0| + (if rendered then 1 else 0) && whose == if rendered then whose0 + [|steps0|] else whose0
    ensures Paid(sh, services[|steps0|], old(book.Balance()), book.Balance(), old(Vnis.FreeOf(vnis)),
                 Vnis.FreeOf(vnis), rendered)
  {
    var k := |steps0|;
    ghost var addr, before := book.Assigned(), Vnis.NumbersOf(vnis);
    var one := SharedBy(sh, services[k].name);
    var more, used;
    more, used, rendered := RenderService(book, vnis, one, services[k].conns);
    if book.usePool { book.PoolAddressesDistinct(); }
    var r := Run(one, used, services[k].conns);
    NumbersFitMore(sh.kind, runs0, r, before, Vnis.NumbersOf(vnis));
    steps, runs, whose := steps0 + [more], runs0, whose0;
    if rendered {
      ServiceHasEnds(one, used, book.Assigned(), services[k].conns, more);
      ServicesGrow(sh, services, addr, book.Assigned(), steps0, runs0, whose0, more, r);
      runs, whose := runs0 + [r], whose0 + [k];
    } else {
      ServicesKeep(sh, services, addr, book.Assigned(), steps0, runs0, whose0, more);
    }
  }

  /** What a service costs, and that it was rendered exactly if it can be, with enough VNIs and addresses. */
  ghost predicate Paid(sh: Common, service: ServiceSpec, y: Account, z: Account, left: nat, left': nat, rendered: bool)
  {
    var ends := EndsTo(SharedBy(sh, service.name), service.conns, |service.conns|);
    && Spent(y, z, ends) && (rendered ==> ends <= z.addr.Keys)
    && (rendered <==> && CanRenderService(sh, service) && left >= Needed(sh.kind, |service.conns|) && Enough(y, ends))
    && left' >= left - Needed(sh.kind, |service.conns|)
    && (rendered ==> left' == left - Needed(sh.kind, |service.conns|))
  }

  /** How many connections the first services have. */
  function Connections(services: seq<ServiceSpec>, n: nat): nat
    requires n <= |services|
  {
    if n == 0 then 0 else Connections(services, n - 1) + |services[n - 1].conns|
  }

  /** The connections of the first services can be rendered, and have enough VNIs. */
  ghost predicate AllCanRender(sh: Common, services: seq<ServiceSpec>, n: nat, free: nat)
    requires n <= |services|
  {
    && free >= Needed(sh.kind, Connections(services, n))
    && forall k | 0 <= k < n :: CanRenderService(sh, services[k])
  }

  /** The endpoints of the connections of the first services. */
  ghost function AllEnds(sh: Common, services: seq<ServiceSpec>, n: nat): set<string>
    requires n <= |services|
  {
    if n == 0 then {} else
      var last := services[n - 1];
      AllEnds(sh, services, n - 1) + EndsTo(SharedBy(sh, last.name), last.conns, |last.conns|)
  }

  /**
   * Of the first services n were rendered, and some VNIs and addresses are left: all were rendered exactly if all can
   * be, and there were enough VNIs and addresses.
   */
  ghost predicate Counted(sh: Common, services: seq<ServiceSpec>, k: nat, free: nat, left: nat, x: Account, y: Account,
                          n: nat)
    requires k <= |services|
  {
    && n <= k && (n == k <==> AllCanRender(sh, services, k, free) && Enough(x, AllEnds(sh, services, k)))
    && left >= free - Needed(sh.kind, Connections(services, k))
    && (n == k ==> left == free - Needed(sh.kind, Connections(services, k)))
    && Spent(x, y, AllEnds(sh, services, k)) && (n == k ==> AllEnds(sh, services, k) <= y.addr.Keys)
  }

  /** There are VNIs and addresses for all services. */
  ghost predicate EnoughForAll(sh: Common, services: seq<ServiceSpec>, free: nat, x: Account)
  {
    && free >= Needed(sh.kind, Connections(services, |services|))
    && Enough(x, AllEnds(sh, services, |services|))
  }

  /** The connections of a service can be rendered. */
  ghost predicate CanRenderService(sh: Common, service: ServiceSpec)
  {
    AllRenderable(SharedBy(sh, service.name), service.conns, |service.conns|)
  }

  /** Then each of the first services was rendered exactly if its own connections can be. */
  ghost predicate Separate(sh: Common, services: seq<ServiceSpec>, k: nat, free: nat, x: Account, whose: seq<nat>)
    requires k <= |services|
  {
    EnoughForAll(sh, services, free, x) ==>
      forall j | 0 <= j < k :: j in whose <==> CanRenderService(sh, services[j])
  }

  lemma OwnShare(sh: Common, services: seq<ServiceSpec>, k: nat, free: nat, left: nat, x: Account, y: Account, n: nat)
    requires k < |services| && Counted(sh, services, k, free, left, x, y, n) && EnoughForAll(sh, services, free, x)
    ensures var one, conns := SharedBy(sh, services[k].name), services[k].conns;
            left >= Needed(sh.kind, |conns|) && Enough(y, EndsTo(one, conns, |conns|))
  {
    var all, next := AllEnds(sh, services, |services|), AllEnds(sh, services, k + 1);
    var own := EndsTo(SharedBy(sh, services[k].name), services[k].conns, |services[k].conns|);
    EndsAndCountGrow(sh, services, k + 1, |services|);
    assert next == AllEnds(sh, services, k) + own;
    SpentFor(x, y, AllEnds(sh, services, k), all);
    EnoughStays(x, y, all);
    EnoughFor(y, own, all);
  }

  lemma SeparateOneMore(sh: Common, services: seq<ServiceSpec>, k: nat, free: nat, left: nat, left': nat, x: Account,
                        y: Account, z: Account, n: nat, whose: seq<nat>, rendered: bool)
    requires k < |services| && Counted(sh, services, k, free, left, x, y, n)
    requires Separate(sh, services, k, free, x, whose) && forall j | j in whose :: j < k
    requires Paid(sh, services[k], y, z, left, left', rendered)
    ensures Separate(sh, services, k + 1, free, x, if rendered then whose + [k] else whose)
  {
    if EnoughForAll(sh, services, free, x) {
      OwnShare(sh, services, k, free, left, x, y, n);
      var whose' := if rendered then whose + [k] else whose;
      forall j | 0 <= j < k + 1 ensures j in whose' <==> CanRenderService(sh, services[j]) {
        assert j in whose' <==> j in whose || (rendered && j == k);
      }
    }
  }

  lemma {:induction false} EndsAndCountGrow(sh: Common, services: seq<ServiceSpec>, k: nat, n: nat)
    requires k <= n <= |services|
    ensures AllEnds(sh, services, k) <= AllEnds(sh, services, n) && Connections(services, k) <= Connections(services, n)
  {
    if k < n { EndsAndCountGrow(sh, services, k, n - 1); }
  }

  lemma NoneCounted(sh: Common, services: seq<ServiceSpec>, free: nat, x: Account)
    ensures Counted(sh, services, 0, free, free, x, x, 0)
  {
    SpentNothing(x, {});
    EnoughWas(x, x, {});
  }

  lemma CountedOneMore(sh: Common, services: seq<ServiceSpec>, k: nat, free: nat, left: nat, x: Account, y: Account,
                       n: nat, left': nat, z: Account, rendered: bool)
    requires k < |services| && Counted(sh, services, k, free, left, x, y, n)
    requires Paid(sh, services[k], y, z, left, left', rendered)
    ensures Counted(sh, services, k + 1, free, left', x, z, if rendered then n + 1 else n)
  {
    var have, more := AllEnds(sh, services, k), EndsTo(SharedBy(sh, services[k].name), services[k].conns,
                                                       |services[k].conns|);
    MoreSpent(x, y, z, have, more);
    OneMoreCanRender(sh, services, k, free, left);
  }

  lemma MoreSpent(x: Account, y: Account, z: Account, have: set<string>, more: set<string>)
    requires Spent(x, y, have) && Spent(y, z, more)
    ensures Spent(x, z, have + more) && (Enough(x, have + more) ==> Enough(x, have)) && y.addr.Keys <= z.addr.Keys
    ensures have <= y.addr.Keys ==> (Enough(x, have + more) <==> Enough(y, more))
  {
    SpentTwice(x, y, z, have, more);
    EnoughFor(x, have, have + more);
    SpentFor(x, y, have, have + more);
    EnoughStays(x, y, have + more);
    KeysStay(y.addr, z.addr);
    if have <= y.addr.Keys { EnoughTogether(y, have, more); }
  }

  lemma OneMoreCanRender(sh: Common, services: seq<ServiceSpec>, k: nat, free: nat, left: nat)
    requires k < |services|
    ensures AllCanRender(sh, services, k + 1, free) ==> AllCanRender(sh, services, k, free)
    ensures left == free - Needed(sh.kind, Connections(services, k)) ==>
              (AllCanRender(sh, services, k + 1, free) <==>
                 && AllCanRender(sh, services, k, free) && CanRenderService(sh, services[k])
                 && left >= Needed(sh.kind, |services[k].conns|))
  {}

  /**
   * Renders all services, one after the other. None fails exactly if all connections can be rendered and there are
   * enough VNIs and addresses; and if there are, one that fails does not keep another from being rendered.
   */
  method RenderServices(book: AddressBook, vnis: Vnis.VniAllocator?, sh: Common, services: seq<ServiceSpec>)
    returns (steps: seq<seq<Step>>, runs: seq<Run>, whose: seq<nat>)
    requires book.Valid() && (book.usePool || DistinctAddresses(book.fixed)) && (vnis != null ==> vnis.Valid())
    requires SpecsFit(sh, services)
    modifies book, book.pool, if vnis == null then {} else {vnis.bm.words}
    ensures book.Valid() && |steps| == |services|
    ensures Spent(old(book.Balance()), book.Balance(), AllEnds(sh, services, |services|))
    ensures ServicesDone(sh, services, book.Assigned(), steps, runs, whose)
    ensures NumbersFit(sh.kind, runs, Vnis.NumbersOf(vnis))
    ensures |runs| == |services| <==>
              && AllCanRender(sh, services, |services|, old(Vnis.FreeOf(vnis)))
              && Enough(old(book.Balance()), AllEnds(sh, services, |services|))
    ensures Separate(sh, services, |services|, old(Vnis.FreeOf(vnis)), old(book.Balance()), whose)
  {
    steps, runs, whose := [], [], [];
    ghost var free, x := Vnis.FreeOf(vnis), book.Balance();
    NoneCounted(sh, services, free, x);
    for k := 0 to |services|
      invariant book.Valid() && |steps| == k
      invariant ServicesDone(sh, services, book.Assigned(), steps, runs, whose)
      invariant NumbersFit(sh.kind, runs, Vnis.NumbersOf(vnis))
      invariant Through(sh, services, k, free, Vnis.FreeOf(vnis), x, book.Balance(), |runs|, whose)
    {
      steps, runs, whose := RenderOneMoreService(book, vnis, sh, services, steps, runs, whose, x, free);
    }
  }

  /** What the first services have spent of addresses and VNIs, and which of them were rendered. */
  ghost predicate Through(sh: Common, services: seq<ServiceSpec>, k: nat, free: nat, left: nat, x: Account, y: Account,
                          n: nat, whose: seq<nat>)
  {
    && k <= |services| && Counted(sh, services, k, free, left, x, y, n) && Separate(sh, services, k, free, x, whose)
    && forall j | j in whose :: j < k
  }

  lemma ThroughOneMore(sh: Common, services: seq<ServiceSpec>, k: nat, free: nat, left: nat, left': nat, x: Account,
                       y: Account, z: Account, n: nat, whose: seq<nat>, rendered: bool, k': nat, n': nat,
                       whose': seq<nat>)
    requires k < |services| && Through(sh, services, k, free, left, x, y, n, whose)
    requires Paid(sh, services[k], y, z, left, left', rendered) && k' == k + 1
    requires n' == n + (if rendered then 1 else 0) && whose' == if rendered then whose + [k] else whose
    ensures Through(sh, services, k', free, left', x, z, n', whose')
  {
    SeparateOneMore(sh, services, k, free, left, left', x, y, z, n, whose, rendered);
    CountedOneMore(sh, services, k, free, left, x, y, n, left', z, rendered);
  }

  /** One more service, counted. */
  method RenderOneMoreService(book: AddressBook, vnis: Vnis.VniAllocator?, sh: Common, services: seq<ServiceSpec>,
                              steps0: seq<seq<Step>>, runs0: seq<Run>, whose0: seq<nat>, ghost x: Account,
                              ghost free: nat)
    returns (steps: seq<seq<Step>>, runs: seq<Run>, whose: seq<nat>)
    requires book.Valid() && (book.usePool || DistinctAddresses(book.fixed)) && (vnis != null ==> vnis.Valid())
    requires SpecsFit(sh, services) && |steps0| < |services|
    requires ServicesDone(sh, services, book.Assigned(), steps0, runs0, whose0)
    requires NumbersFit(sh.kind, runs0, Vnis.NumbersOf(vnis))
    requires Through(sh, services, |steps0|, free, Vnis.FreeOf(vnis), x, book.Balance(), |runs0|, whose0)
    modifies book, book.pool, if vnis == null then {} else {vnis.bm.words}
    ensures book.Valid() && |steps| == |steps0| + 1
    ensures ServicesDone(sh, services, book.Assigned(), steps, runs, whose)
    ensures NumbersFit(sh.kind, runs, Vnis.NumbersOf(vnis))
    ensures Through(sh, services, |steps|, free, Vnis.FreeOf(vnis), x, book.Balance(), |runs|, whose)
  {
    ghost var left, y, rendered := Vnis.FreeOf(vnis), book.Balance(), false;
    steps, runs, whose, rendered := RenderNextService(book, vnis, sh, services, steps0, runs0, whose0);
    ThroughOneMore(sh, services, |steps0|, free, left, Vnis.FreeOf(vnis), x, y, book.Balance(), |runs0|, whose0,
                   rendered, |steps|, |runs|, whose);
  }
}
