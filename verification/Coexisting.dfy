/** Several connections over one overlay: when they stay apart, and when their frames mix. */
module Coexisting {
  import opened Text
  import opened Unsigned
  import opened Entries
  import opened SortedMembers
  import opened Layers
  import opened Forwarding
  import opened Overlay
  import opened Layouts
  import opened Tunnels
  import opened PointToPoint

  /** A connection as it is rendered: bridges over an overlay, or cross-connects over a tunnel. */
  datatype Part = Bridged(layout: Layout) | Wired(ground: Ground, wire: Wire)

  ghost predicate PartValid(p: Part)
  {
    match p
    case Bridged(l) => l.Valid()
    case Wired(g, w) => WireValid(g, w)
  }

  ghost predicate IsPartBlock(p: Part, x: seq<KV>)
    requires PartValid(p)
  {
    match p
    case Bridged(l) => IsBlock(l, x)
    case Wired(g, w) => IsWireBlock(g, w, x)
  }

  ghost predicate PartBeside(x: seq<KV>, p: Part)
  {
    match p
    case Bridged(l) => Beside(x, l)
    case Wired(_, w) => BesideWire(x, w)
  }

  ghost predicate PartUnlike(m: map<Key, KV>, p: Part)
    requires PartValid(p)
  {
    match p
    case Bridged(l) => Unlike(m, l)
    case Wired(g, w) => UnlikeWire(m, g, w)
  }

  /** Entries from before that do not interfere with a connection. */
  ghost predicate PartForeign(m: map<Key, KV>, p: Part)
    requires PartValid(p)
  {
    match p
    case Bridged(l) => Foreign(m, l)
    case Wired(g, w) => ForeignToWire(m, g, w)
  }

  /** A block that interferes with none of the connections, such as the entries of pod interfaces. */
  ghost predicate Harmless(x: seq<KV>, ps: iset<Part>)
    requires forall p | p in ps :: PartValid(p)
  {
    forall p | p in ps :: PartBeside(x, p) && PartUnlike(Own(x), p)
  }

  lemma PlainIsHarmless(x: seq<KV>, p: Part)
    requires PartValid(p) && Plain(x)
    ensures PartBeside(x, p) && PartUnlike(Own(x), p)
  {
    match p
    case Bridged(l) => PlainIsBeside(x, l);
    case Wired(g, w) => PlainIsBesideWire(x, g, w);
  }

  /** All blocks of a set of connections that do not overwrite each other, and otherwise harmless ones. */
  ghost predicate Together(ps: iset<Part>, all: seq<seq<KV>>)
  {
    && (forall p | p in ps :: PartValid(p))
    && (forall p, q, x | p in ps && q in ps && p != q && IsPartBlock(q, x) :: PartBeside(x, p))
    && (forall p, x | p in ps && IsPartBlock(p, x) :: x in all)
    && (forall x | x in all :: (exists p :: p in ps && IsPartBlock(p, x)) || Harmless(x, ps))
  }

  /** The other connections have no tunnel like those of p. */
  ghost predicate ApartFrom(ps: iset<Part>, p: Part)
    requires PartValid(p) && forall q | q in ps :: PartValid(q)
  {
    forall q, x | q in ps && q != p && IsPartBlock(q, x) :: PartUnlike(Own(x), p)
  }

  lemma TogetherAmong(ps: iset<Part>, all: seq<seq<KV>>, l: Layout)
    requires Together(ps, all) && Bridged(l) in ps
    ensures l.Valid() && Among(l, all)
    ensures ApartFrom(ps, Bridged(l)) ==> AllUnlike(l, all)
  {
    var p := Bridged(l);
    forall x | IsBlock(l, x) ensures x in all { assert IsPartBlock(p, x); }
    forall x | x in all ensures IsBlock(l, x) || Beside(x, l) {
      if q :| q in ps && IsPartBlock(q, x) { if q != p { assert PartBeside(x, p); } } else { assert PartBeside(x, p); }
    }
    if ApartFrom(ps, p) {
      forall x | x in all ensures IsBlock(l, x) || Unlike(Own(x), l) {
        if q :| q in ps && IsPartBlock(q, x) {
          assert q != p ==> PartUnlike(Own(x), p);
        } else {
          assert PartUnlike(Own(x), p);
        }
      }
    }
  }

  lemma TogetherWireAmong(ps: iset<Part>, all: seq<seq<KV>>, g: Ground, w: Wire)
    requires Together(ps, all) && Wired(g, w) in ps
    ensures WireValid(g, w) && WireAmong(g, w, all)
    ensures ApartFrom(ps, Wired(g, w)) ==> AllUnlikeWire(g, w, all)
  {
    var p := Wired(g, w);
    forall x | IsWireBlock(g, w, x) ensures x in all { assert IsPartBlock(p, x); }
    forall x | x in all ensures IsWireBlock(g, w, x) || BesideWire(x, w) {
      if q :| q in ps && IsPartBlock(q, x) { if q != p { assert PartBeside(x, p); } } else { assert PartBeside(x, p); }
    }
    if ApartFrom(ps, p) {
      forall x | x in all ensures IsWireBlock(g, w, x) || UnlikeWire(Own(x), g, w) {
        if q :| q in ps && IsPartBlock(q, x) {
          assert q != p ==> PartUnlike(Own(x), p);
        } else {
          assert PartUnlike(Own(x), p);
        }
      }
    }
  }

  /**
   * With any number of connections rendered together, and with the entries of pod interfaces among them, the
   * configuration builds the fabric of each connection that is apart from the others.
   */
  lemma CoexistingRealize(m: map<Key, KV>, ps: iset<Part>, all: seq<seq<KV>>, l: Layout)
    requires Together(ps, all) && Bridged(l) in ps && ApartFrom(ps, Bridged(l)) && Foreign(m, l) && l.parms.flood
    ensures Realizes(LayBlocks(m, all), l.ToFabric())
  {
    TogetherAmong(ps, all, l);
    RenderingRealizes(l, m, all);
  }

  /** Likewise each cross-connected connection matches its ends. */
  lemma CoexistingMatch(m: map<Key, KV>, ps: iset<Part>, all: seq<seq<KV>>, g: Ground, w: Wire, i: nat,
                        t: seq<Port>, dst: Port)
    requires Together(ps, all) && Wired(g, w) in ps && ApartFrom(ps, Wired(g, w)) && ForeignToWire(m, g, w) && i < 2
    ensures Arrives(LayBlocks(m, all), t, w.From(i).AsPort(), dst)
            <==> t == [w.From(i).AsPort(), w.TunnelPort(1 - i)] && dst == w.To(i).AsPort()
  {
    TogetherWireAmong(ps, all, g, w);
    WireMatchesEnds(g, w, m, all, i, t, dst);
  }

  /** No interface of a connection is a tunnel. */
  lemma PortIsNoTunnel(m: map<Key, KV>, ps: iset<Part>, all: seq<seq<KV>>, p: Part, port: Port)
    requires Together(ps, all) && p in ps && PartForeign(m, p) && HasPort(p, port)
    ensures !IsTunnel(LayBlocks(m, all), port)
  {
    match p
    case Bridged(l) =>
      TogetherAmong(ps, all, l);
      PortsStayFree(l, m, all, port);
    case Wired(g, w) =>
      TogetherWireAmong(ps, all, g, w);
      EndIsNoTunnel(g, w, m, all, if port == w.a.AsPort() then 0 else 1);
  }

  /** Two bridged connections with different interfaces, bridges and generated names. */
  ghost predicate Alongside(l: Layout, k: Layout)
  {
    && BridgeName(l.conn) != BridgeName(k.conn)
    && (forall p | p in l.ports :: p !in k.ports)
    && (forall a, b, c | (a, b) in l.links && (a, c) in k.links :: l.name(a, b) != k.name(a, c))
  }

  /** The connections have different VNIs or, over the same addresses, tunnels between different nodes. */
  ghost predicate Apart(l: Layout, k: Layout)
  {
    l.conn.vni != k.conn.vni || (l.addr == k.addr && l.links !! k.links)
  }

  lemma LayoutKeysApart(l: Layout, k: Layout, x: seq<KV>, key: Key)
    requires l.Valid() && k.Valid() && Alongside(l, k) && IsBlock(k, x) && key in Own(x)
    ensures !KeyOf(l, key)
  {
    if key.InterfaceKey? { InterfaceOrigin(k, x, key); }
    if key.BridgeKey? {
      NotFromRoutes(k, x, key);
      OwnKeys(x, key);
    }
  }

  lemma LayoutBridgesApart(l: Layout, k: Layout, y: seq<KV>, n: string, name: string, x: Member)
    requires l.Valid() && k.Valid() && Alongside(l, k) && IsBlock(k, y)
    requires HasBridge(Own(y), n, name) && x in BridgeAt(Own(y), n, name).members
    ensures Port(n, x.name) !in l.ports && forall b | (n, b) in l.links :: x.name != l.name(n, b)
  {
    NotFromRoutes(k, y, BridgeKey(n, name));
    OwnOne(y[0]);
    MemberApart(l, k, n, x);
  }

  lemma MemberApart(l: Layout, o: Layout, n: string, x: Member)
    requires l.Valid() && o.Valid() && Alongside(l, o) && x in SortedOf(o.Bag(n))
    ensures Port(n, x.name) !in l.ports && forall b | (n, b) in l.links :: x.name != l.name(n, b)
  {
    BridgeMembers(o, n);
    BagMember(o, n, x);
    if x in o.TunnelMembers(n) {
      var q :| q in o.links && q.0 == n && x == o.TunnelMember(n, q.1);
      assert (n, q.1) in o.links;
    }
  }

  /** The blocks of one connection leave another alone. */
  lemma LayoutBesideLayout(l: Layout, k: Layout, x: seq<KV>)
    requires l.Valid() && k.Valid() && Alongside(l, k) && IsBlock(k, x)
    ensures Beside(x, l)
  {
    forall key | key in Own(x) ensures !KeyOf(l, key) { LayoutKeysApart(l, k, x, key); }
    forall p | p in l.ports ensures !IsTunnel(Own(x), p) { if IsTunnel(Own(x), p) { BlockTunnel(k, x, p); } }
    forall n, name, y
      | HasBridge(Own(x), n, name) && name != BridgeName(l.conn) && y in BridgeAt(Own(x), n, name).members
      ensures Port(n, y.name) !in l.ports && forall b | (n, b) in l.links :: y.name != l.name(n, b)
    {
      LayoutBridgesApart(l, k, x, n, name, y);
    }
  }

  lemma LayoutUnlikeLayout(l: Layout, k: Layout, x: seq<KV>)
    requires l.Valid() && k.Valid() && Apart(l, k) && IsBlock(k, x)
    ensures Unlike(Own(x), l)
  {
    forall p, a, b | IsTunnel(Own(x), p) && (a, b) in l.links ensures TunnelAt(Own(x), p) != TunnelOf(l, a, b) {
      BlockTunnel(k, x, p);
    }
  }

  /** A cross-connected and a bridged connection under different VNIs, whose generated names then differ. */
  ghost predicate WireAlongside(w: Wire, l: Layout)
  {
    && w.conn.vni != l.conn.vni
    && forall i, b | 0 <= i < 2 && (w.From(i).node, b) in l.links :: w.Name(i) != l.name(w.From(i).node, b)
  }

  lemma WireBesideLayout(l: Layout, g: Ground, w: Wire, x: seq<KV>)
    requires l.Valid() && WireValid(g, w) && WireAlongside(w, l) && IsWireBlock(g, w, x)
    ensures Beside(x, l) && Unlike(Own(x), l)
  {
    var i := if IsEndBlock(g, w, 0, x) then 0 else 1;
    forall k | k in Own(x) ensures !KeyOf(l, k) { if !k.RouteKey? { EndOrigin(g, w, i, x, k); } }
    forall p | IsTunnel(Own(x), p)
      ensures p !in l.ports && forall a, b | (a, b) in l.links :: TunnelAt(Own(x), p) != TunnelOf(l, a, b)
    {
      WireTunnel(g, w, x, p);
    }
    forall n, name ensures !HasBridge(Own(x), n, name) {
      if BridgeKey(n, name) in Own(x) { EndOrigin(g, w, i, x, BridgeKey(n, name)); }
    }
  }

  lemma LayoutKeyApart(w: Wire, i: nat, l: Layout, x: seq<KV>, k: Key)
    requires l.Valid() && WireAlongside(w, l) && IsBlock(l, x) && k in Own(x) && i < 2
    ensures !KeyOfEnd(w, i, k)
  {
    NamePrefix(w, i);
    if k.InterfaceKey? {
      InterfaceOrigin(l, x, k);
    } else if k.XConnectKey? {
      NotFromRoutes(l, x, k);
    }
  }

  lemma LayoutBesideWire(g: Ground, w: Wire, l: Layout, x: seq<KV>)
    requires l.Valid() && WireValid(g, w) && WireAlongside(w, l) && IsBlock(l, x)
    ensures BesideWire(x, w) && UnlikeWire(Own(x), g, w)
  {
    forall k | k in Own(x) ensures !KeyOfWire(w, k) {
      LayoutKeyApart(w, 0, l, x, k);
      LayoutKeyApart(w, 1, l, x, k);
    }
    forall p | IsTunnel(Own(x), p)
      ensures TUNNEL_PREFIX <= p.ifName && TunnelAt(Own(x), p).vni == l.conn.vni
    {
      BlockTunnel(l, x, p);
    }
  }

  /** Two cross-connected connections with different ends, under different VNIs. */
  ghost predicate WiresAlongside(w: Wire, v: Wire)
  {
    && w.conn.vni != v.conn.vni
    && forall i, j | 0 <= i < 2 && 0 <= j < 2 ::
         w.From(i).AsPort() != v.From(j).AsPort() && w.TunnelPort(i) != v.TunnelPort(j)
  }

  lemma WireBesideWire(g: Ground, w: Wire, h: Ground, v: Wire, x: seq<KV>)
    requires WireValid(g, w) && WireValid(h, v) && WiresAlongside(w, v) && IsWireBlock(h, v, x)
    ensures BesideWire(x, w) && UnlikeWire(Own(x), g, w)
  {
    var j := if IsEndBlock(h, v, 0, x) then 0 else 1;
    forall k | k in Own(x) ensures !KeyOfWire(w, k) {
      if !k.RouteKey? { WireKeyApart(g, w, 0, h, v, j, x, k); WireKeyApart(g, w, 1, h, v, j, x, k); }
    }
    forall p | IsTunnel(Own(x), p)
      ensures TUNNEL_PREFIX <= p.ifName && TunnelAt(Own(x), p).vni == v.conn.vni
    {
      WireTunnel(h, v, x, p);
    }
  }

  lemma WireKeyApart(g: Ground, w: Wire, i: nat, h: Ground, v: Wire, j: nat, x: seq<KV>, k: Key)
    requires WireValid(g, w) && WireValid(h, v) && WiresAlongside(w, v) && i < 2 && j < 2
    requires IsEndBlock(h, v, j, x) && k in Own(x) && !k.RouteKey?
    ensures !KeyOfEnd(w, i, k)
  {
    EndOrigin(h, v, j, x, k);
    NamePrefix(w, i);
    NamePrefix(v, j);
    assert w.From(i).AsPort() != v.From(j).AsPort() && w.TunnelPort(i) != v.TunnelPort(j);
  }

  /** Names that end in different VNIs, and bridges of different connections, are different. */
  lemma VniEndsName(x: string, y: string, m: nat, n: nat)
    requires x + ("_VNI_" + Decimal(m)) == y + ("_VNI_" + Decimal(n))
    ensures m == n
  {
    assert x + ("_VNI_" + Decimal(m)) == (x + "_VNI") + ['_'] + Decimal(m);
    assert y + ("_VNI_" + Decimal(n)) == (y + "_VNI") + ['_'] + Decimal(n);
    DecimalSuffixInjective(x + "_VNI", y + "_VNI", '_', m, n);
  }

  lemma BridgeNameInjective(c: Conn, d: Conn)
    requires BridgeName(c) == BridgeName(d)
    ensures c.service == d.service && c.index == d.index
  {
    assert BridgeName(c) == ("BD_" + c.service + "_CONN") + ['_'] + Decimal(c.index);
    assert BridgeName(d) == ("BD_" + d.service + "_CONN") + ['_'] + Decimal(d.index);
    DecimalSuffixInjective("BD_" + c.service + "_CONN", "BD_" + d.service + "_CONN", '_', c.index, d.index);
    CommonSuffix("BD_" + c.service, "BD_" + d.service, "_CONN");
    CommonPrefix("BD_", c.service, d.service);
  }

  ghost function ConnOf(p: Part): Conn
  {
    match p
    case Bridged(l) => l.conn
    case Wired(_, w) => w.conn
  }

  /** A pod interface of a connection. */
  ghost predicate HasPort(p: Part, port: Port)
  {
    match p
    case Bridged(l) => port in l.ports
    case Wired(_, w) => port == w.a.AsPort() || port == w.b.AsPort()
  }

  /** The generated names of a bridged connection end in its VNI, as those of a mesh do. */
  ghost predicate NamesEndInVni(l: Layout)
  {
    forall a, b :: EndsInVni(l.name(a, b), l.conn.vni)
  }

  ghost predicate EndsInVni(name: string, vni: u32) { exists pre :: name == pre + ("_VNI_" + Decimal(vni)) }

  /** Connections with different VNIs, places in their services, and interfaces. */
  ghost predicate DistinctParts(p: Part, q: Part)
  {
    && ConnOf(p).vni != ConnOf(q).vni
    && (ConnOf(p).service, ConnOf(p).index) != (ConnOf(q).service, ConnOf(q).index)
    && (forall port | HasPort(p, port) :: !HasPort(q, port))
    && (p.Bridged? ==> NamesEndInVni(p.layout)) && (q.Bridged? ==> NamesEndInVni(q.layout))
  }

  lemma NamesApart(l: Layout, a: string, b: string, pre: string, vni: u32)
    requires NamesEndInVni(l) && l.conn.vni != vni
    ensures l.name(a, b) != pre + ("_VNI_" + Decimal(vni))
  {
    assert EndsInVni(l.name(a, b), l.conn.vni);
    var p :| l.name(a, b) == p + ("_VNI_" + Decimal(l.conn.vni));
    if l.name(a, b) == pre + ("_VNI_" + Decimal(vni)) { VniEndsName(p, pre, l.conn.vni, vni); }
  }

  lemma DistinctLayouts(l: Layout, k: Layout)
    requires DistinctParts(Bridged(l), Bridged(k))
    ensures Alongside(l, k) && Apart(l, k)
  {
    if BridgeName(l.conn) == BridgeName(k.conn) { BridgeNameInjective(l.conn, k.conn); }
    forall p | p in l.ports ensures p !in k.ports { assert HasPort(Bridged(l), p); }
    forall a, b, c | (a, b) in l.links && (a, c) in k.links ensures l.name(a, b) != k.name(a, c) {
      assert EndsInVni(k.name(a, c), k.conn.vni);
      var pre :| k.name(a, c) == pre + ("_VNI_" + Decimal(k.conn.vni));
      NamesApart(l, a, b, pre, k.conn.vni);
    }
  }

  lemma DistinctWireAndLayout(w: Wire, l: Layout)
    requires w.conn.vni != l.conn.vni && NamesEndInVni(l)
    ensures WireAlongside(w, l)
  {
    forall i, b | 0 <= i < 2 && (w.From(i).node, b) in l.links ensures w.Name(i) != l.name(w.From(i).node, b) {
      NamesApart(l, w.From(i).node, b, w.Stem(i), w.conn.vni);
    }
  }

  lemma DistinctWires(g: Ground, w: Wire, h: Ground, v: Wire)
    requires DistinctParts(Wired(g, w), Wired(h, v))
    ensures WiresAlongside(w, v)
  {
    forall i, j | 0 <= i < 2 && 0 <= j < 2
      ensures w.From(i).AsPort() != v.From(j).AsPort() && w.TunnelPort(i) != v.TunnelPort(j)
    {
      assert HasPort(Wired(g, w), w.From(i).AsPort()) && HasPort(Wired(h, v), v.From(j).AsPort());
      if w.Name(i) == v.Name(j) { VniEndsName(w.Stem(i), v.Stem(j), w.conn.vni, v.conn.vni); }
    }
  }

  /** Connections with different VNIs, places and interfaces do not interfere with each other. */
  lemma DistinctPartsApart(p: Part, q: Part, x: seq<KV>)
    requires PartValid(p) && PartValid(q) && DistinctParts(p, q) && IsPartBlock(q, x)
    ensures PartBeside(x, p) && PartUnlike(Own(x), p)
  {
    match (p, q)
    case (Bridged(l), Bridged(k)) =>
      DistinctLayouts(l, k);
      LayoutBesideLayout(l, k, x);
      LayoutUnlikeLayout(l, k, x);
    case (Bridged(l), Wired(h, v)) =>
      DistinctWireAndLayout(v, l);
      WireBesideLayout(l, h, v, x);
    case (Wired(g, w), Bridged(k)) =>
      DistinctWireAndLayout(w, k);
      LayoutBesideWire(g, w, k, x);
    case (Wired(g, w), Wired(h, v)) =>
      DistinctWires(g, w, h, v);
      WireBesideWire(g, w, h, v, x);
  }

  lemma TunnelOfAny(m: map<Key, KV>, ps: iset<Part>, all: seq<seq<KV>>, l: Layout, a: string, b: string)
    requires Together(ps, all) && Bridged(l) in ps && (a, b) in l.links
    ensures var cfg := LayBlocks(m, all); var p := Port(a, l.name(a, b));
            l.Valid() && TunnelUp(cfg, p) && TunnelAt(cfg, p) == TunnelOf(l, a, b)
  {
    TogetherAmong(ps, all, l);
    TunnelRendered(l, m, all, a, b);
  }

  lemma LinkedAcross(m: map<Key, KV>, ps: iset<Part>, all: seq<seq<KV>>, l: Layout, k: Layout,
                     a: string, b: string, c: string, d: string)
    requires Together(ps, all) && Bridged(l) in ps && Bridged(k) in ps && l.addr == k.addr
    requires (a, b) in l.links && (c, d) in k.links
    ensures Linked(LayBlocks(m, all), Port(a, l.name(a, b)), Port(c, k.name(c, d)))
            <==> l.conn.vni == k.conn.vni && c == b && d == a
  {
    TunnelOfAny(m, ps, all, l, a, b);
    TunnelOfAny(m, ps, all, k, c, d);
  }

  /**
   * Where connections mix: a frame sent into a tunnel of one comes out of a tunnel of another exactly if
   * they have the same VNI and the tunnels join the same nodes.
   */
  lemma MixedExactlyIf(m: map<Key, KV>, ps: iset<Part>, all: seq<seq<KV>>, l: Layout, k: Layout)
    requires Together(ps, all) && Bridged(l) in ps && Bridged(k) in ps && l.addr == k.addr
    ensures (exists a, b, c, d :: (a, b) in l.links && (c, d) in k.links &&
               Linked(LayBlocks(m, all), Port(a, l.name(a, b)), Port(c, k.name(c, d))))
            <==> !Apart(l, k)
  {
    var cfg := LayBlocks(m, all);
    if a, b, c, d :|
        (a, b) in l.links && (c, d) in k.links && Linked(cfg, Port(a, l.name(a, b)), Port(c, k.name(c, d)))
    {
      TogetherAmong(ps, all, l);
      LinkedAcross(m, ps, all, l, k, a, b, c, d);
      assert (c, d) in l.links;
    }
    if !Apart(l, k) { MixedWhere(m, ps, all, l, k); }
  }

  lemma MixedWhere(m: map<Key, KV>, ps: iset<Part>, all: seq<seq<KV>>, l: Layout, k: Layout)
    requires Together(ps, all) && Bridged(l) in ps && Bridged(k) in ps && l.addr == k.addr && !Apart(l, k)
    ensures exists a, b, c, d :: (a, b) in l.links && (c, d) in k.links &&
              Linked(LayBlocks(m, all), Port(a, l.name(a, b)), Port(c, k.name(c, d)))
  {
    TogetherAmong(ps, all, l);
    var q :| q in l.links && q in k.links;
    assert (q.0, q.1) in l.links && (q.1, q.0) in k.links;
    LinkedAcross(m, ps, all, l, k, q.0, q.1, q.1, q.0);
  }

  /** Connections over the same nodes, with the same options and addresses. */
  ghost predicate SameGround(l: Layout, k: Layout) { l.opts == k.opts && l.specs == k.specs && l.addr == k.addr }

  lemma CrossInterfacesAgree(l: Layout, k: Layout, x: seq<KV>, y: seq<KV>, key: Key)
    requires l.Valid() && k.Valid() && SameGround(l, k) && Alongside(l, k)
    requires IsBlock(l, x) && IsBlock(k, y) && key in Own(x) && key in Own(y) && key.InterfaceKey?
    ensures Own(x)[key] == Own(y)[key]
  {
    InterfaceOrigin(l, x, key);
    InterfaceOrigin(k, y, key);
  }

  lemma CrossRoutesAgree(l: Layout, k: Layout, x: seq<KV>, y: seq<KV>, key: Key)
    requires l.Valid() && k.Valid() && SameGround(l, k)
    requires IsBlock(l, x) && IsBlock(k, y) && key in Own(x) && key in Own(y) && key.RouteKey?
    ensures Own(x)[key] == Own(y)[key]
  {
    var b := RouteOrigin(l, x, key);
    var c := RouteOrigin(k, y, key);
  }

  /** Blocks of different connections agree on the keys that both have: loopbacks and routes. */
  lemma CrossAgree(l: Layout, k: Layout, x: seq<KV>, y: seq<KV>, key: Key)
    requires l.Valid() && k.Valid() && SameGround(l, k) && Alongside(l, k)
    requires IsBlock(l, x) && IsBlock(k, y) && key in Own(x) && key in Own(y)
    ensures Own(x)[key] == Own(y)[key]
  {
    if key.InterfaceKey? {
      CrossInterfacesAgree(l, k, x, y, key);
    } else if key.RouteKey? {
      CrossRoutesAgree(l, k, x, y, key);
    } else {
      NotFromRoutes(l, x, key);
      NotFromRoutes(k, y, key);
      OwnKeys(x, key);
      OwnKeys(y, key);
    }
  }

  /** In whatever order the connections of an overlay are rendered, the entries are the same. */
  lemma ConnectionOrderDoesNotMatter(m: map<Key, KV>, ls: iset<Layout>, x: seq<seq<KV>>, y: seq<seq<KV>>)
    requires forall l | l in ls :: l.Valid()
    requires forall l, k | l in ls && k in ls && l != k :: SameGround(l, k) && Alongside(l, k)
    requires forall b :: b in x <==> exists l :: l in ls && IsBlock(l, b)
    requires forall b :: b in x <==> b in y
    ensures LayBlocks(m, x) == LayBlocks(m, y)
  {
    forall a, b, k | a in x && b in x && k in Own(a) && k in Own(b) ensures Own(a)[k] == Own(b)[k] {
      var l :| l in ls && IsBlock(l, a);
      var o :| o in ls && IsBlock(o, b);
      if l == o { BlocksAgree(l, a, b, k); } else { CrossAgree(l, o, a, b, k); }
    }
    OrderDoesNotMatter(m, x, y);
  }

  /** Addresses that other nodes get later do not change the blocks of a connection. */
  lemma BlocksKeep(l: Layout, addr: map<string, string>, x: seq<KV>)
    requires l.Valid() && Extends(l.addr, addr) && DistinctAddresses(addr)
    ensures l.(addr := addr).Valid() && (IsBlock(l, x) <==> IsBlock(l.(addr := addr), x))
  {
    var k := l.(addr := addr);
    assert k.Valid();
    SameTunnelBlocks(l, k, x);
    SameRouteBlocks(l, k, x);
    forall n ensures l.BridgeBlock(n) == k.BridgeBlock(n) { assert l.Bag(n) == k.Bag(n); }
  }

  lemma SameTunnelBlocks(l: Layout, k: Layout, x: seq<KV>)
    requires l.Valid() && k.Valid() && k == l.(addr := k.addr) && Extends(l.addr, k.addr)
    ensures IsTunnelBlock(l, x) <==> IsTunnelBlock(k, x)
  {
    if a, b :| (a, b) in l.links && x == l.TunnelBlock(a, b) { assert x == k.TunnelBlock(a, b); }
    if a, b :| (a, b) in k.links && x == k.TunnelBlock(a, b) { assert x == l.TunnelBlock(a, b); }
  }

  lemma SameRouteBlocks(l: Layout, k: Layout, x: seq<KV>)
    requires l.Valid() && k.Valid() && k == l.(addr := k.addr) && Extends(l.addr, k.addr)
    ensures IsRouteBlock(l, x) <==> IsRouteBlock(k, x)
  {
    if a, b :| (a, b) in l.links && x == l.RouteBlock(a, b) { assert x == k.RouteBlock(a, b); }
    if a, b :| (a, b) in k.links && x == k.RouteBlock(a, b) { assert x == l.RouteBlock(a, b); }
  }
}
