/** The L2PP renderer of networknodeoverlay_vxlanmesh.go: cross-connects over a tunnel between two nodes. */
module PointToPoint {
  import opened Text
  import opened Addresses
  import opened Entries
  import opened Entities
  import opened Layers
  import opened Forwarding
  import opened Overlay
  import opened Layouts
  import opened Collecting
  import opened Tunnels

  /** An end of a connection: its node, its pod with the interface there, and its interface at the node. */
  datatype End = End(node: string, pod: string, podIf: string, ifName: string) {
    function AsPort(): Port { Port(node, ifName) }
  }

  /** A connection between two ends under a VNI. */
  datatype Wire = Wire(conn: Conn, a: End, b: End) {
    function From(i: nat): End { if i == 0 then a else b }

    function To(i: nat): End { if i == 0 then b else a }

    /** The nodes of the ends, which need addresses. */
    function Nodes(): set<string> { {a.node, b.node} }

    function Stem(i: nat): string
    {
      TUNNEL_PREFIX + "L2PP_NET_SRVC_" + Label(conn)
      + "_FROM_" + From(i).node + "_" + From(i).pod + "_" + From(i).podIf
      + "_TO_" + To(i).node + "_" + To(i).pod + "_" + To(i).podIf
    }

    function Name(i: nat): string { Stem(i) + ("_VNI_" + Decimal(conn.vni)) }

    /** The end's own side of the tunnel. */
    function TunnelPort(i: nat): Port { Port(From(i).node, Name(i)) }

    ghost predicate Known(addr: map<string, string>, specs: NodeSpecs)
    {
      a.node in addr && b.node in addr && a.node in specs && b.node in specs
    }

    /** The ends are at different nodes, and their interfaces have no names of tunnels. */
    ghost predicate Valid() { a.node != b.node && !(TUNNEL_PREFIX <= a.ifName) && !(TUNNEL_PREFIX <= b.ifName) }
  }

  /** How the name of a tunnel is put together, by example. */
  lemma WireNameExample()
    ensures var w := Wire(Conn("s", 1, 5), End("a", "p", "e", "x"), End("b", "q", "f", "y"));
            w.Name(1) == "IF_VXLAN_L2PP_NET_SRVC_" + "s_CONN_1" + "_FROM_" + "b" + "_" + "q" + "_" + "f"
                         + "_TO_" + "a" + "_" + "p" + "_" + "e" + "_VNI_5"
  {
    assert Label(Conn("s", 1, 5)) == "s_CONN_1";
    assert TUNNEL_PREFIX + "L2PP_NET_SRVC_" == "IF_VXLAN_L2PP_NET_SRVC_";
    assert "_VNI_" + Decimal(5) == "_VNI_5";
  }

  /** What the connections of an overlay share. */
  datatype Ground = Ground(opts: Options, specs: NodeSpecs, addr: map<string, string>)

  function OneWay(node: string, rx: string, tx: string): KV { KV(XConnectKey(node, rx), XConnectBody(rx, tx)) }

  function CrossConnect(node: string, x: string, y: string): seq<Step>
  {
    [Add(OneWay(node, x, y)), Add(OneWay(node, y, x))]
  }

  /** The steps of the tunnels from the first k ends. */
  function TunnelPart(g: Ground, w: Wire, k: nat): seq<Step>
    requires w.Known(g.addr, g.specs)
  {
    if k == 0 then [] else
      TunnelPart(g, w, k - 1)
      + TunnelSteps(w.conn, g.opts, g.specs, w.From(k - 1).node, w.To(k - 1).node, w.Name(k - 1),
                    g.addr[w.From(k - 1).node], g.addr[w.To(k - 1).node])
  }

  /** The cross-connects at the first k ends. */
  function CrossPart(w: Wire, k: nat): seq<Step>
  {
    if k == 0 then [] else CrossPart(w, k - 1) + CrossConnect(w.From(k - 1).node, w.From(k - 1).ifName, w.Name(k - 1))
  }

  function WireSteps(g: Ground, w: Wire): seq<Step>
    requires w.Known(g.addr, g.specs)
  {
    TunnelPart(g, w, 2) + CrossPart(w, 2)
  }

  ghost predicate IsEndBlock(g: Ground, w: Wire, i: nat, x: seq<KV>)
    requires w.Known(g.addr, g.specs)
  {
    var n, o := w.From(i), w.To(i);
    || x == [VxlanEntry(n.node, w.Name(i), w.conn.vni, g.addr[n.node], g.addr[o.node])]
    || x == LoopbackAndRoutes(g.opts, g.specs, n.node, o.node, g.addr[n.node], g.addr[o.node])
    || x == [OneWay(n.node, n.ifName, w.Name(i))]
    || x == [OneWay(n.node, w.Name(i), n.ifName)]
  }

  /** The two blocks of an end's tunnel, and the two of its cross-connect. */
  function TunnelBlocks(g: Ground, w: Wire, i: nat): seq<seq<KV>>
    requires w.Known(g.addr, g.specs)
  {
    var n, o := w.From(i), w.To(i);
    [[VxlanEntry(n.node, w.Name(i), w.conn.vni, g.addr[n.node], g.addr[o.node])],
     LoopbackAndRoutes(g.opts, g.specs, n.node, o.node, g.addr[n.node], g.addr[o.node])]
  }

  function CrossBlocks(w: Wire, i: nat): seq<seq<KV>>
  {
    var n := w.From(i);
    [[OneWay(n.node, n.ifName, w.Name(i))], [OneWay(n.node, w.Name(i), n.ifName)]]
  }

  lemma TunnelPartBlocks(g: Ground, w: Wire, i: nat)
    requires w.Known(g.addr, g.specs) && i < 2
    ensures Blocks(TunnelPart(g, w, i + 1)) == Blocks(TunnelPart(g, w, i)) + TunnelBlocks(g, w, i)
  {
    var n, o := w.From(i), w.To(i);
    var more := TunnelSteps(w.conn, g.opts, g.specs, n.node, o.node, w.Name(i), g.addr[n.node], g.addr[o.node]);
    BlocksConcat(TunnelPart(g, w, i), more);
    BlocksOfTwo(more[0], more[1]);
  }

  lemma CrossPartBlocks(w: Wire, i: nat)
    requires i < 2
    ensures Blocks(CrossPart(w, i + 1)) == Blocks(CrossPart(w, i)) + CrossBlocks(w, i)
  {
    var n := w.From(i);
    BlocksConcat(CrossPart(w, i), CrossConnect(n.node, n.ifName, w.Name(i)));
    BlocksOfTwo(Add(OneWay(n.node, n.ifName, w.Name(i))), Add(OneWay(n.node, w.Name(i), n.ifName)));
  }

  lemma WireBlocksAre(g: Ground, w: Wire)
    requires w.Known(g.addr, g.specs)
    ensures Blocks(WireSteps(g, w))
            == TunnelBlocks(g, w, 0) + TunnelBlocks(g, w, 1) + (CrossBlocks(w, 0) + CrossBlocks(w, 1))
  {
    BothTunnelBlocks(g, w);
    BothCrossBlocks(w);
    BlocksConcat(TunnelPart(g, w, 2), CrossPart(w, 2));
  }

  lemma BothTunnelBlocks(g: Ground, w: Wire)
    requires w.Known(g.addr, g.specs)
    ensures Blocks(TunnelPart(g, w, 2)) == TunnelBlocks(g, w, 0) + TunnelBlocks(g, w, 1)
  {
    assert TunnelPart(g, w, 0) == [];
    TunnelPartBlocks(g, w, 0);
    TunnelPartBlocks(g, w, 1);
  }

  lemma BothCrossBlocks(w: Wire)
    ensures Blocks(CrossPart(w, 2)) == CrossBlocks(w, 0) + CrossBlocks(w, 1)
  {
    assert CrossPart(w, 0) == [];
    CrossPartBlocks(w, 0);
    CrossPartBlocks(w, 1);
  }

  lemma EndBlocks(g: Ground, w: Wire, i: nat, x: seq<KV>)
    requires w.Known(g.addr, g.specs)
    ensures IsEndBlock(g, w, i, x) <==> x in TunnelBlocks(g, w, i) || x in CrossBlocks(w, i)
  {}

  ghost predicate IsWireBlock(g: Ground, w: Wire, x: seq<KV>)
    requires w.Known(g.addr, g.specs)
  {
    IsEndBlock(g, w, 0, x) || IsEndBlock(g, w, 1, x)
  }

  lemma WireBlocks(g: Ground, w: Wire, x: seq<KV>)
    requires w.Known(g.addr, g.specs)
    ensures x in Blocks(WireSteps(g, w)) <==> IsWireBlock(g, w, x)
  {
    WireBlocksAre(g, w);
    EndBlocks(g, w, 0, x);
    EndBlocks(g, w, 1, x);
  }

  /** A connection between known nodes with different tunnel addresses. */
  ghost predicate WireValid(g: Ground, w: Wire)
  {
    DistinctAddresses(g.addr) && w.Known(g.addr, g.specs) && w.Valid()
  }

  lemma NamePrefix(w: Wire, i: nat)
    ensures TUNNEL_PREFIX <= w.Name(i) && w.Name(i) != LoopbackName(w.From(i).node)
  {
    assert w.Name(i)[10] == '2';
    assert LoopbackName(w.From(i).node)[10] == 'O';
  }

  lemma RouteKeys(g: Ground, w: Wire, i: nat, kv: KV)
    requires w.Known(g.addr, g.specs) && i < 2
    requires kv in LoopbackAndRoutes(g.opts, g.specs, w.From(i).node, w.To(i).node, g.addr[w.From(i).node],
                                     g.addr[w.To(i).node])
    ensures kv == LoopbackEntry(g.opts, w.From(i).node, StripSlash(g.addr[w.From(i).node])) || kv.key.RouteKey?
  {
    var n, o := w.From(i).node, w.To(i).node;
    if kv != LoopbackEntry(g.opts, n, StripSlash(g.addr[n])) {
      RoutesKeys(g.opts, n, o, StripSlash(g.addr[o]), g.specs[n], g.specs[n], g.specs[o], kv);
    }
  }

  /** What an end's block holds under a key that is no route's. */
  lemma EndOrigin(g: Ground, w: Wire, i: nat, x: seq<KV>, k: Key)
    requires w.Known(g.addr, g.specs) && i < 2 && IsEndBlock(g, w, i, x) && k in Own(x) && !k.RouteKey?
    ensures var n, o := w.From(i), w.To(i);
            || Own(x)[k] == VxlanEntry(n.node, w.Name(i), w.conn.vni, g.addr[n.node], g.addr[o.node])
            || Own(x)[k] == LoopbackEntry(g.opts, n.node, StripSlash(g.addr[n.node]))
            || Own(x)[k] == OneWay(n.node, n.ifName, w.Name(i))
            || Own(x)[k] == OneWay(n.node, w.Name(i), n.ifName)
    ensures Own(x)[k].key == k
  {
    OwnKeys(x, k);
    var n, o := w.From(i), w.To(i);
    if x == LoopbackAndRoutes(g.opts, g.specs, n.node, o.node, g.addr[n.node], g.addr[o.node]) {
      RouteKeys(g, w, i, Own(x)[k]);
    }
  }

  ghost predicate KeyOfEnd(w: Wire, i: nat, k: Key)
  {
    || k == InterfaceKey(w.From(i).node, w.Name(i))
    || k == XConnectKey(w.From(i).node, w.From(i).ifName)
    || k == XConnectKey(w.From(i).node, w.Name(i))
  }

  /** The key of a tunnel or of a cross-connect of the connection. */
  ghost predicate KeyOfWire(w: Wire, k: Key) { KeyOfEnd(w, 0, k) || KeyOfEnd(w, 1, k) }

  ghost predicate EndsFree(m: map<Key, KV>, w: Wire)
  {
    !IsTunnel(m, w.From(0).AsPort()) && !IsTunnel(m, w.From(1).AsPort())
  }

  ghost function TunnelFromEnd(g: Ground, w: Wire, i: nat): Tunnel
    requires w.Known(g.addr, g.specs)
  {
    Vxlan(StripSlash(g.addr[w.From(i).node]), StripSlash(g.addr[w.To(i).node]), w.conn.vni)
  }

  /** No tunnel has the endpoints and VNI of the connection's. */
  ghost predicate UnlikeWire(m: map<Key, KV>, g: Ground, w: Wire)
    requires w.Known(g.addr, g.specs)
  {
    forall p | IsTunnel(m, p) :: TunnelAt(m, p) != TunnelFromEnd(g, w, 0) && TunnelAt(m, p) != TunnelFromEnd(g, w, 1)
  }

  ghost predicate ForeignToWire(m: map<Key, KV>, g: Ground, w: Wire)
    requires w.Known(g.addr, g.specs)
  {
    EndsFree(m, w) && UnlikeWire(m, g, w)
  }

  ghost predicate BesideWire(x: seq<KV>, w: Wire)
  {
    (forall k | k in Own(x) :: !KeyOfWire(w, k)) && EndsFree(Own(x), w)
  }

  /** The connection's blocks with others beside them. */
  ghost predicate WireAmong(g: Ground, w: Wire, all: seq<seq<KV>>)
    requires w.Known(g.addr, g.specs)
  {
    && (forall x | IsWireBlock(g, w, x) :: x in all)
    && (forall x | x in all :: IsWireBlock(g, w, x) || BesideWire(x, w))
  }

  ghost predicate AllUnlikeWire(g: Ground, w: Wire, all: seq<seq<KV>>)
    requires w.Known(g.addr, g.specs)
  {
    forall x | x in all :: IsWireBlock(g, w, x) || UnlikeWire(Own(x), g, w)
  }

  lemma EndsAgree(g: Ground, w: Wire, i: nat, j: nat, x: seq<KV>, y: seq<KV>, k: Key)
    requires WireValid(g, w) && i < 2 && j < 2 && KeyOfWire(w, k)
    requires IsEndBlock(g, w, i, x) && IsEndBlock(g, w, j, y) && k in Own(x) && k in Own(y)
    ensures Own(x)[k] == Own(y)[k]
  {
    EndOrigin(g, w, i, x, k);
    EndOrigin(g, w, j, y, k);
    NamePrefix(w, i);
    NamePrefix(w, j);
  }

  /** A block of an end settles what stands under its keys. */
  lemma Settled(g: Ground, w: Wire, m: map<Key, KV>, all: seq<seq<KV>>, i: nat, kv: KV)
    requires WireValid(g, w) && WireAmong(g, w, all) && i < 2 && IsEndBlock(g, w, i, [kv]) && KeyOfEnd(w, i, kv.key)
    ensures var cfg := LayBlocks(m, all); kv.key in cfg && cfg[kv.key] == kv
  {
    var k := kv.key;
    forall a, b | a in all && b in all && k in Own(a) && k in Own(b) ensures Own(a)[k] == Own(b)[k] {
      var s, t := if IsEndBlock(g, w, 0, a) then 0 else 1, if IsEndBlock(g, w, 0, b) then 0 else 1;
      EndsAgree(g, w, s, t, a, b, k);
    }
    OwnOne(kv);
    LayBlocksAt(m, all, k, [kv]);
  }

  /** A tunnel that a block of the connection has is one of its own. */
  lemma WireTunnel(g: Ground, w: Wire, x: seq<KV>, p: Port)
    requires WireValid(g, w) && IsWireBlock(g, w, x) && IsTunnel(Own(x), p)
    ensures TUNNEL_PREFIX <= p.ifName
    ensures exists i | 0 <= i < 2 :: p == w.TunnelPort(i) && TunnelAt(Own(x), p) == TunnelFromEnd(g, w, i)
  {
    var i := if IsEndBlock(g, w, 0, x) then 0 else 1;
    EndOrigin(g, w, i, x, InterfaceKey(p.node, p.ifName));
    NamePrefix(w, i);
    assert p == w.TunnelPort(i);
  }

  /** Frames received at p are cross-connected. */
  ghost predicate Crossed(cfg: Config, p: Port)
  {
    var k := XConnectKey(p.node, p.ifName);
    k in cfg && cfg[k].body.XConnectBody? && cfg[k].body.rx == p.ifName
  }

  /** Where a frame received at p is sent. */
  ghost function Sent(cfg: Config, p: Port): Port
    requires Crossed(cfg, p)
  {
    Port(p.node, cfg[XConnectKey(p.node, p.ifName)].body.tx)
  }

  /** The interfaces at which a frame is received on its way through cross-connects and tunnels. */
  ghost predicate CrossPath(cfg: Config, t: seq<Port>)
  {
    && t != [] && (forall i | 0 <= i < |t| :: Crossed(cfg, t[i]))
    && (forall i, j | 0 <= i && j == i + 1 < |t| :: Linked(cfg, Sent(cfg, t[i]), t[j]))
  }

  /** A frame from src is handed to the interface dst, which is no tunnel. */
  ghost predicate Arrives(cfg: Config, t: seq<Port>, src: Port, dst: Port)
  {
    CrossPath(cfg, t) && t[0] == src && Sent(cfg, t[|t| - 1]) == dst && !IsTunnel(cfg, dst)
  }

  ghost predicate Reaches(cfg: Config, src: Port, dst: Port) { exists t :: Arrives(cfg, t, src, dst) }

  lemma ThirdNeedsTunnel(cfg: Config, t: seq<Port>)
    requires CrossPath(cfg, t)
    ensures |t| >= 3 ==> IsTunnel(cfg, Sent(cfg, t[1]))
  {
    if |t| >= 3 { assert Linked(cfg, Sent(cfg, t[1]), t[2]); }
  }

  /** The cross-connects and tunnels of one end. */
  lemma EndSettled(g: Ground, w: Wire, m: map<Key, KV>, all: seq<seq<KV>>, i: nat)
    requires WireValid(g, w) && WireAmong(g, w, all) && i < 2
    ensures var cfg := LayBlocks(m, all); var p := w.From(i).AsPort(); var u := w.TunnelPort(i);
            && Crossed(cfg, p) && Sent(cfg, p) == u && Crossed(cfg, u) && Sent(cfg, u) == p
            && TunnelUp(cfg, u) && TunnelAt(cfg, u) == TunnelFromEnd(g, w, i)
  {
    var n, o := w.From(i), w.To(i);
    Settled(g, w, m, all, i, OneWay(n.node, n.ifName, w.Name(i)));
    Settled(g, w, m, all, i, OneWay(n.node, w.Name(i), n.ifName));
    Settled(g, w, m, all, i, VxlanEntry(n.node, w.Name(i), w.conn.vni, g.addr[n.node], g.addr[o.node]));
  }

  lemma OnlyThisTunnel(g: Ground, w: Wire, m: map<Key, KV>, all: seq<seq<KV>>, i: nat, q: Port)
    requires WireValid(g, w) && AllUnlikeWire(g, w, all) && UnlikeWire(m, g, w) && i < 2
    requires IsTunnel(LayBlocks(m, all), q) && TunnelAt(LayBlocks(m, all), q) == TunnelFromEnd(g, w, i)
    ensures q == w.TunnelPort(i)
  {
    TunnelFrom(m, all, q);
    var x :| x in all && IsTunnel(Own(x), q) && TunnelAt(LayBlocks(m, all), q) == TunnelAt(Own(x), q);
    WireTunnel(g, w, x, q);
  }

  lemma LinkedToOther(g: Ground, w: Wire, m: map<Key, KV>, all: seq<seq<KV>>, i: nat, q: Port)
    requires WireValid(g, w) && WireAmong(g, w, all) && AllUnlikeWire(g, w, all) && UnlikeWire(m, g, w) && i < 2
    ensures Linked(LayBlocks(m, all), w.TunnelPort(i), q) <==> q == w.TunnelPort(1 - i)
  {
    EndSettled(g, w, m, all, i);
    EndSettled(g, w, m, all, 1 - i);
    if Linked(LayBlocks(m, all), w.TunnelPort(i), q) { OnlyThisTunnel(g, w, m, all, 1 - i, q); }
  }

  lemma EndIsNoTunnel(g: Ground, w: Wire, m: map<Key, KV>, all: seq<seq<KV>>, i: nat)
    requires WireValid(g, w) && WireAmong(g, w, all) && EndsFree(m, w) && i < 2
    ensures !IsTunnel(LayBlocks(m, all), w.From(i).AsPort())
  {
    var p := w.From(i).AsPort();
    if IsTunnel(LayBlocks(m, all), p) {
      TunnelFrom(m, all, p);
      if x :| x in all && IsTunnel(Own(x), p) {
        if IsWireBlock(g, w, x) { WireTunnel(g, w, x, p); }
      }
    }
  }

  /**
   * The cross-connects and tunnels match the ends of a connection: a frame from an end takes one way only, through
   * its own tunnel to the partner's, and arrives at the partner and nowhere else, whatever else is rendered beside it.
   */
  lemma WireMatchesEnds(g: Ground, w: Wire, m: map<Key, KV>, all: seq<seq<KV>>, i: nat, t: seq<Port>, dst: Port)
    requires WireValid(g, w) && WireAmong(g, w, all) && AllUnlikeWire(g, w, all) && ForeignToWire(m, g, w) && i < 2
    ensures Arrives(LayBlocks(m, all), t, w.From(i).AsPort(), dst)
            <==> t == [w.From(i).AsPort(), w.TunnelPort(1 - i)] && dst == w.To(i).AsPort()
  {
    var cfg := LayBlocks(m, all);
    EndSettled(g, w, m, all, i);
    EndSettled(g, w, m, all, 1 - i);
    EndIsNoTunnel(g, w, m, all, 1 - i);
    forall q ensures Linked(cfg, w.TunnelPort(i), q) <==> q == w.TunnelPort(1 - i) {
      LinkedToOther(g, w, m, all, i, q);
    }
    OneWayThrough(cfg, w.From(i).AsPort(), w.TunnelPort(i), w.TunnelPort(1 - i), w.To(i).AsPort(), t, dst);
  }

  /** The one way of a frame through a cross-connect, a tunnel and another cross-connect. */
  lemma OneWayThrough(cfg: Config, p: Port, v: Port, u: Port, q: Port, t: seq<Port>, dst: Port)
    requires Crossed(cfg, p) && Sent(cfg, p) == v && Crossed(cfg, u) && Sent(cfg, u) == q
    requires IsTunnel(cfg, v) && !IsTunnel(cfg, q) && forall r :: Linked(cfg, v, r) <==> r == u
    ensures Arrives(cfg, t, p, dst) <==> t == [p, u] && dst == q
  {
    if Arrives(cfg, t, p, dst) && |t| >= 2 {
      assert Linked(cfg, Sent(cfg, t[0]), t[1]);
      ThirdNeedsTunnel(cfg, t);
    }
  }

  /** Following the connection back from where it arrives is the inverse. */
  lemma WireIsInvolutive(g: Ground, w: Wire, m: map<Key, KV>, all: seq<seq<KV>>, i: nat, t: seq<Port>, dst: Port,
                         u: seq<Port>, back: Port)
    requires WireValid(g, w) && WireAmong(g, w, all) && AllUnlikeWire(g, w, all) && ForeignToWire(m, g, w) && i < 2
    requires Arrives(LayBlocks(m, all), t, w.From(i).AsPort(), dst) && Arrives(LayBlocks(m, all), u, dst, back)
    ensures back == w.From(i).AsPort() != dst
  {
    WireMatchesEnds(g, w, m, all, i, t, dst);
    WireMatchesEnds(g, w, m, all, 1 - i, u, back);
  }

  /** Entries of pod interfaces do not interfere with a connection. */
  lemma PlainIsBesideWire(x: seq<KV>, g: Ground, w: Wire)
    requires w.Known(g.addr, g.specs) && Plain(x)
    ensures BesideWire(x, w) && UnlikeWire(Own(x), g, w)
  {
    NamePrefix(w, 0);
    NamePrefix(w, 1);
    forall k | k in Own(x) ensures !KeyOfWire(w, k) { PlainOwn(x, k); }
    forall p ensures !IsTunnel(Own(x), p) {
      if InterfaceKey(p.node, p.ifName) in Own(x) { PlainOwn(x, InterfaceKey(p.node, p.ifName)); }
    }
  }
}
