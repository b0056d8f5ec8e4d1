/** What a flooded frame does in a full mesh and in a hub and spoke: it reaches every pod once. */
module Flooding {
  import opened Forwarding

  lemma OneHop(cfg: Config, h: Hop)
    requires Copies(cfg, h)
    ensures Path(cfg, [h])
  {}

  /** A copy goes on through a tunnel. */
  lemma OneMoreHop(cfg: Config, t: seq<Hop>, h: Hop)
    requires Path(cfg, t) && Copies(cfg, h) && Linked(cfg, Out(cfg, t[|t| - 1]), In(cfg, h))
    ensures Path(cfg, t + [h])
  {}

  lemma TwoHops(cfg: Config, h: Hop, g: Hop)
    requires Copies(cfg, h) && Copies(cfg, g) && Linked(cfg, Out(cfg, h), In(cfg, g))
    ensures Path(cfg, [h] + [g])
  {
    OneHop(cfg, h);
    OneMoreHop(cfg, [h], g);
  }

  /** Every node has a tunnel to every other, and the tunnels share a split-horizon group. */
  ghost predicate IsMesh(f: Fabric)
  {
    f.group != 0 && forall a, b :: (a, b) in f.links <==> a in f.pods && b in f.pods && a != b
  }

  /** The first copy that a pod's bridge makes. */
  lemma FirstHop(cfg: Config, f: Fabric, h: Hop, src: Port)
    requires Realizes(cfg, f) && f.PodPort(src) && Copies(cfg, h) && In(cfg, h) == src
    ensures h.node == src.node && h.bridge == f.bridge && Out(cfg, h) != src
    ensures f.PodPort(Out(cfg, h)) || exists to :: f.TunnelPort(Out(cfg, h), to)
  {
    HopInFabric(cfg, f, h);
  }

  /** A copy that has reached a pod interface goes no further. */
  lemma PodEnds(cfg: Config, f: Fabric, p: Port, q: Port)
    requires Realizes(cfg, f)
    ensures f.PodPort(p) ==> !Linked(cfg, p, q)
  {}

  /** The hop behind a tunnel of a mesh goes to a pod interface of the next node. */
  lemma MeshSecondHop(cfg: Config, f: Fabric, p: Port, to: string, h: Hop)
    requires Realizes(cfg, f) && IsMesh(f) && f.TunnelPort(p, to) && Copies(cfg, h) && Linked(cfg, p, In(cfg, h))
    ensures h.node == to && h.bridge == f.bridge && In(cfg, h) == Port(to, f.tunnel(to, p.node))
    ensures f.PodPort(Out(cfg, h))
  {
    NextNode(cfg, f, p, to, In(cfg, h));
    HopInFabric(cfg, f, h);
    if !f.PodPort(Out(cfg, h)) {
      var b :| f.TunnelPort(Out(cfg, h), b);
      HopGroups(cfg, f, h, p.node, b);
    }
  }

  /** Every path that starts at a pod interface of a mesh crosses at most two bridges. */
  lemma MeshPaths(cfg: Config, f: Fabric, t: seq<Hop>, src: Port)
    requires Realizes(cfg, f) && IsMesh(f) && f.PodPort(src) && Path(cfg, t) && In(cfg, t[0]) == src
    ensures |t| <= 2 && t[0].node == src.node && t[0].bridge == f.bridge && Out(cfg, t[0]) != src
    ensures |t| == 2 ==>
              && f.TunnelPort(Out(cfg, t[0]), t[1].node) && t[1].bridge == f.bridge
              && In(cfg, t[1]) == Port(t[1].node, f.tunnel(t[1].node, src.node)) && f.PodPort(Out(cfg, t[1]))
    ensures |t| == 1 ==> Out(cfg, t[0]).node == src.node
  {
    FirstHop(cfg, f, t[0], src);
    if |t| >= 2 {
      assert Linked(cfg, Out(cfg, t[0]), In(cfg, t[1]));
      PodEnds(cfg, f, Out(cfg, t[0]), In(cfg, t[1]));
      var to :| f.TunnelPort(Out(cfg, t[0]), to);
      MeshSecondHop(cfg, f, Out(cfg, t[0]), to, t[1]);
      if |t| >= 3 { PodEnds(cfg, f, Out(cfg, t[1]), In(cfg, t[2])); }
    }
  }

  lemma PodToTunnel(cfg: Config, f: Fabric, src: Port, to: string) returns (h: Hop)
    requires Realizes(cfg, f) && f.PodPort(src) && (src.node, to) in f.links
    ensures Copies(cfg, h) && In(cfg, h) == src && Out(cfg, h) == Port(src.node, f.tunnel(src.node, to))
  {
    TunnelIsTunnel(cfg, f, src.node, to);
    assert f.TunnelPort(Port(src.node, f.tunnel(src.node, to)), to);
    h := MakeHop(cfg, f, src.node, src.ifName, f.tunnel(src.node, to));
  }

  lemma TunnelToPod(cfg: Config, f: Fabric, dst: Port, back: string) returns (h: Hop)
    requires Realizes(cfg, f) && f.PodPort(dst) && (dst.node, back) in f.links
    ensures Copies(cfg, h) && In(cfg, h) == Port(dst.node, f.tunnel(dst.node, back)) && Out(cfg, h) == dst
  {
    TunnelIsTunnel(cfg, f, dst.node, back);
    assert f.TunnelPort(Port(dst.node, f.tunnel(dst.node, back)), back);
    h := MakeHop(cfg, f, dst.node, f.tunnel(dst.node, back), dst.ifName);
  }

  lemma TunnelToTunnel(cfg: Config, f: Fabric, n: string, a: string, b: string) returns (h: Hop)
    requires Realizes(cfg, f) && (n, a) in f.links && (n, b) in f.links && a != b && f.group == 0
    ensures Copies(cfg, h) && In(cfg, h) == Port(n, f.tunnel(n, a)) && Out(cfg, h) == Port(n, f.tunnel(n, b))
  {
    assert f.TunnelPort(Port(n, f.tunnel(n, a)), a) && f.TunnelPort(Port(n, f.tunnel(n, b)), b);
    h := MakeHop(cfg, f, n, f.tunnel(n, a), f.tunnel(n, b));
  }

  lemma MeshReaches(cfg: Config, f: Fabric, src: Port, dst: Port) returns (t: seq<Hop>)
    requires Realizes(cfg, f) && IsMesh(f) && f.PodPort(src) && f.PodPort(dst) && src != dst
    ensures Delivers(cfg, t, src, dst)
  {
    if src.node == dst.node {
      var h := MakeHop(cfg, f, src.node, src.ifName, dst.ifName);
      OneHop(cfg, h);
      t := [h];
    } else {
      var h := PodToTunnel(cfg, f, src, dst.node);
      var g := TunnelToPod(cfg, f, dst, src.node);
      OneHop(cfg, h);
      OneMoreHop(cfg, [h], g);
      t := [h] + [g];
    }
  }

  /** The length of a path tells whether it ends at the node where it starts. */
  lemma MeshLength(cfg: Config, f: Fabric, src: Port, dst: Port, t: seq<Hop>)
    requires Realizes(cfg, f) && IsMesh(f) && f.PodPort(src) && Delivers(cfg, t, src, dst)
    ensures |t| == if dst.node == src.node then 1 else 2
  {
    MeshPaths(cfg, f, t, src);
  }

  lemma MeshOnlyOnce(cfg: Config, f: Fabric, src: Port, dst: Port, t: seq<Hop>, u: seq<Hop>)
    requires Realizes(cfg, f) && IsMesh(f) && f.PodPort(src)
    requires Delivers(cfg, t, src, dst) && Delivers(cfg, u, src, dst)
    ensures t == u
  {
    MeshPaths(cfg, f, t, src);
    MeshPaths(cfg, f, u, src);
    MeshLength(cfg, f, src, dst, t);
    MeshLength(cfg, f, src, dst, u);
    HopIsUnique(cfg, f, t[0], u[0]);
    if |t| == 2 {
      assert t[1].node == dst.node == u[1].node;
      HopIsUnique(cfg, f, t[1], u[1]);
    }
  }

  /**
   * A frame that enters a pod interface of a mesh reaches every other pod interface exactly once and
   * never comes back to the first; it is handed to no other interface; and no copy of it crosses more
   * than two bridges, so it does not loop.
   */
  lemma MeshFloodsOnce(cfg: Config, f: Fabric, src: Port)
    requires Realizes(cfg, f) && IsMesh(f) && f.PodPort(src)
    ensures forall dst | f.PodPort(dst) && dst != src :: DeliversOnce(cfg, src, dst)
    ensures forall t, dst | Delivers(cfg, t, src, dst) :: f.PodPort(dst) && dst != src
    ensures forall t | Path(cfg, t) && In(cfg, t[0]) == src :: |t| <= 2
  {
    forall dst | f.PodPort(dst) && dst != src ensures DeliversOnce(cfg, src, dst) {
      var t := MeshReaches(cfg, f, src, dst);
      forall t, u | Delivers(cfg, t, src, dst) && Delivers(cfg, u, src, dst) ensures t == u {
        MeshOnlyOnce(cfg, f, src, dst, t, u);
      }
    }
    forall t, dst | Delivers(cfg, t, src, dst) ensures f.PodPort(dst) && dst != src {
      MeshPaths(cfg, f, t, src);
      FirstHop(cfg, f, t[0], src);
      if !f.PodPort(dst) { var to :| f.TunnelPort(dst, to); TunnelIsTunnel(cfg, f, dst.node, to); }
    }
    forall t | Path(cfg, t) && In(cfg, t[0]) == src ensures |t| <= 2 { MeshPaths(cfg, f, t, src); }
  }

  /** Every spoke has a tunnel to the hub and the hub one to every spoke; the hub has no pods, and nothing is split. */
  ghost predicate IsHubAndSpoke(f: Fabric, hub: string)
  {
    && f.group == 0 && hub in f.pods && f.pods[hub] == {}
    && forall a, b :: (a, b) in f.links <==>
         a in f.pods && b in f.pods && a != b && (a == hub || b == hub)
  }

  lemma HubSecondHop(cfg: Config, f: Fabric, hub: string, p: Port, h: Hop)
    requires Realizes(cfg, f) && IsHubAndSpoke(f, hub) && p.node != hub
    requires f.TunnelPort(p, hub) && Copies(cfg, h) && Linked(cfg, p, In(cfg, h))
    ensures h.node == hub && h.bridge == f.bridge && In(cfg, h) == Port(hub, f.tunnel(hub, p.node))
    ensures exists to :: to != p.node && f.TunnelPort(Out(cfg, h), to)
  {
    NextNode(cfg, f, p, hub, In(cfg, h));
    HopInFabric(cfg, f, h);
    assert !f.PodPort(Out(cfg, h));
    var to :| f.TunnelPort(Out(cfg, h), to);
    assert to != p.node;
  }

  lemma SpokeLastHop(cfg: Config, f: Fabric, hub: string, p: Port, to: string, h: Hop)
    requires Realizes(cfg, f) && IsHubAndSpoke(f, hub) && p.node == hub
    requires f.TunnelPort(p, to) && Copies(cfg, h) && Linked(cfg, p, In(cfg, h))
    ensures h.node == to && h.bridge == f.bridge && In(cfg, h) == Port(to, f.tunnel(to, hub))
    ensures f.PodPort(Out(cfg, h))
  {
    NextNode(cfg, f, p, to, In(cfg, h));
    HopInFabric(cfg, f, h);
  }

  /** Every path from a pod interface goes at most up to the hub and down to one other spoke. */
  lemma HubPaths(cfg: Config, f: Fabric, hub: string, t: seq<Hop>, src: Port)
    requires Realizes(cfg, f) && IsHubAndSpoke(f, hub) && f.PodPort(src) && Path(cfg, t) && In(cfg, t[0]) == src
    ensures |t| <= 3 && t[0].node == src.node && t[0].bridge == f.bridge && Out(cfg, t[0]) != src
    ensures |t| >= 2 ==>
              && f.TunnelPort(Out(cfg, t[0]), hub) && t[1].node == hub && t[1].bridge == f.bridge
              && In(cfg, t[1]) == Port(hub, f.tunnel(hub, src.node)) && !f.PodPort(Out(cfg, t[1]))
              && IsTunnel(cfg, Out(cfg, t[1]))
    ensures |t| == 3 ==>
              && t[2].node != src.node && f.TunnelPort(Out(cfg, t[1]), t[2].node) && t[2].bridge == f.bridge
              && In(cfg, t[2]) == Port(t[2].node, f.tunnel(t[2].node, hub)) && f.PodPort(Out(cfg, t[2]))
  {
    FirstHop(cfg, f, t[0], src);
    if |t| >= 2 {
      assert Linked(cfg, Out(cfg, t[0]), In(cfg, t[1]));
      PodEnds(cfg, f, Out(cfg, t[0]), In(cfg, t[1]));
      var up :| f.TunnelPort(Out(cfg, t[0]), up);
      HubSecondHop(cfg, f, hub, Out(cfg, t[0]), t[1]);
      var to :| to != src.node && f.TunnelPort(Out(cfg, t[1]), to);
      TunnelIsTunnel(cfg, f, hub, to);
      if |t| >= 3 {
        assert Linked(cfg, Out(cfg, t[1]), In(cfg, t[2]));
        SpokeLastHop(cfg, f, hub, Out(cfg, t[1]), to, t[2]);
        if |t| >= 4 { PodEnds(cfg, f, Out(cfg, t[2]), In(cfg, t[3])); }
      }
    }
  }

  lemma HubPasses(cfg: Config, f: Fabric, hub: string, src: Port, to: string) returns (t: seq<Hop>)
    requires Realizes(cfg, f) && IsHubAndSpoke(f, hub) && f.PodPort(src) && (hub, to) in f.links && to != src.node
    ensures Path(cfg, t) && In(cfg, t[0]) == src && Out(cfg, t[|t| - 1]) == Port(hub, f.tunnel(hub, to))
  {
    var h := PodToTunnel(cfg, f, src, hub);
    var g := TunnelToTunnel(cfg, f, hub, src.node, to);
    OneHop(cfg, h);
    OneMoreHop(cfg, [h], g);
    t := [h] + [g];
  }

  lemma HubReaches(cfg: Config, f: Fabric, hub: string, src: Port, dst: Port) returns (t: seq<Hop>)
    requires Realizes(cfg, f) && IsHubAndSpoke(f, hub) && f.PodPort(src) && f.PodPort(dst) && src != dst
    ensures Delivers(cfg, t, src, dst)
  {
    if src.node == dst.node {
      var h := MakeHop(cfg, f, src.node, src.ifName, dst.ifName);
      OneHop(cfg, h);
      t := [h];
    } else {
      var up := HubPasses(cfg, f, hub, src, dst.node);
      var l := TunnelToPod(cfg, f, dst, hub);
      OneMoreHop(cfg, up, l);
      t := up + [l];
    }
  }

  /** The length of a path tells whether it ends at the spoke where it starts. */
  lemma HubLength(cfg: Config, f: Fabric, hub: string, src: Port, dst: Port, t: seq<Hop>)
    requires Realizes(cfg, f) && IsHubAndSpoke(f, hub) && f.PodPort(src) && Delivers(cfg, t, src, dst)
    ensures |t| == if dst.node == src.node then 1 else 3
  {
    HubPaths(cfg, f, hub, t, src);
  }

  lemma HubOnlyOnce(cfg: Config, f: Fabric, hub: string, src: Port, dst: Port, t: seq<Hop>, u: seq<Hop>)
    requires Realizes(cfg, f) && IsHubAndSpoke(f, hub) && f.PodPort(src)
    requires Delivers(cfg, t, src, dst) && Delivers(cfg, u, src, dst)
    ensures t == u
  {
    HubPaths(cfg, f, hub, t, src);
    HubPaths(cfg, f, hub, u, src);
    HubLength(cfg, f, hub, src, dst, t);
    HubLength(cfg, f, hub, src, dst, u);
    HopIsUnique(cfg, f, t[0], u[0]);
    if |t| == 3 {
      HopIsUnique(cfg, f, t[1], u[1]);
      HopIsUnique(cfg, f, t[2], u[2]);
    }
  }

  /**
   * A frame that enters a pod interface of a spoke reaches every other pod interface on every spoke exactly
   * once, never comes back to the first, and no copy of it crosses more than three bridges.
   */
  lemma HubAndSpokeFloodsOnce(cfg: Config, f: Fabric, hub: string, src: Port)
    requires Realizes(cfg, f) && IsHubAndSpoke(f, hub) && f.PodPort(src)
    ensures forall dst | f.PodPort(dst) && dst != src :: DeliversOnce(cfg, src, dst)
    ensures forall t, dst | Delivers(cfg, t, src, dst) :: f.PodPort(dst) && dst != src
    ensures forall t | Path(cfg, t) && In(cfg, t[0]) == src :: |t| <= 3
  {
    forall dst | f.PodPort(dst) && dst != src ensures DeliversOnce(cfg, src, dst) {
      var t := HubReaches(cfg, f, hub, src, dst);
      forall t, u | Delivers(cfg, t, src, dst) && Delivers(cfg, u, src, dst) ensures t == u {
        HubOnlyOnce(cfg, f, hub, src, dst, t, u);
      }
    }
    forall t, dst | Delivers(cfg, t, src, dst) ensures f.PodPort(dst) && dst != src {
      HubPaths(cfg, f, hub, t, src);
      FirstHop(cfg, f, t[0], src);
      if !f.PodPort(dst) { var to :| f.TunnelPort(dst, to); TunnelIsTunnel(cfg, f, dst.node, to); }
    }
    forall t | Path(cfg, t) && In(cfg, t[0]) == src ensures |t| <= 3 { HubPaths(cfg, f, hub, t, src); }
  }
}
