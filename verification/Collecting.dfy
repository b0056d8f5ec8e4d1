/** Collecting the steps and bridge members of an overlay, tunnel by tunnel. */
module Collecting {
  import opened Entries
  import opened SortedMembers
  import opened Entities
  import opened Layers
  import opened Forwarding
  import opened Overlay
  import opened Layouts
  import opened Tunnels

  type Members = map<string, seq<Member>>

  function MembersAt(m: Members, n: string): seq<Member> { if n in m then m[n] else [] }

  ghost predicate Known(l: Layout, q: (string, string))
  {
    q.0 in l.addr && q.1 in l.addr && q.0 in l.specs && q.1 in l.specs
  }

  ghost predicate IsPairBlock(l: Layout, q: (string, string), x: seq<KV>)
  {
    Known(l, q) && (x == l.TunnelBlock(q.0, q.1) || x == l.RouteBlock(q.0, q.1))
  }

  ghost function DoneMembers(l: Layout, n: string, done: set<(string, string)>): set<Member>
  {
    set q | q in done && q.0 == n :: l.TunnelMember(n, q.1)
  }

  /** The steps of the tunnels done so far are exactly their entries. */
  ghost predicate StepsDone(l: Layout, steps: seq<Step>, done: set<(string, string)>)
  {
    && (forall s | s in steps :: !s.Fail?)
    && (forall q | q in done :: Known(l, q))
    && (forall x :: x in Blocks(steps) <==> exists q :: q in done && IsPairBlock(l, q, x))
  }

  /** The collected bridge members are the pod interfaces and the tunnels done so far. */
  ghost predicate MembersDone(l: Layout, m: Members, done: set<(string, string)>)
  {
    forall n :: multiset(MembersAt(m, n)) == multiset(PodMembers(l.ports, n)) + multiset(DoneMembers(l, n, done))
  }

  /** The steps that add one tunnel with the entries of its endpoint. */
  function TunnelSteps(conn: Conn, opts: Options, specs: NodeSpecs, a: string, b: string, name: string,
                       fromAddr: string, toAddr: string): seq<Step>
    requires a in specs && b in specs
  {
    [Add(VxlanEntry(a, name, conn.vni, fromAddr, toAddr)),
     AddThrough(LoopbackAndRoutes(opts, specs, a, b, fromAddr, toAddr))]
  }

  lemma {:induction false} BlocksConcat(a: seq<Step>, b: seq<Step>)
    ensures Blocks(a + b) == Blocks(a) + Blocks(b)
    decreases a
  {
    if a == [] {
      assert a + b == b;
    } else {
      assert (a + b)[1..] == a[1..] + b;
      BlocksConcat(a[1..], b);
    }
  }

  lemma BlocksOfTwo(s: Step, t: Step)
    ensures Blocks([s, t]) == [StepEntries(s), StepEntries(t)]
  {
    assert [s, t][1..] == [t];
    assert [t][1..] == [];
    assert Blocks([]) == [];
    assert Blocks([t]) == [StepEntries(t)];
  }

  lemma StepsGrow(l: Layout, steps: seq<Step>, done: set<(string, string)>, q: (string, string))
    requires StepsDone(l, steps, done) && Known(l, q)
    ensures StepsDone(l, steps + TunnelSteps(l.conn, l.opts, l.specs, q.0, q.1, l.name(q.0, q.1),
                                             l.addr[q.0], l.addr[q.1]),
                      done + {q})
  {
    var more := TunnelSteps(l.conn, l.opts, l.specs, q.0, q.1, l.name(q.0, q.1), l.addr[q.0], l.addr[q.1]);
    BlocksConcat(steps, more);
    BlocksOfTwo(more[0], more[1]);
    assert Blocks(more) == [l.TunnelBlock(q.0, q.1), l.RouteBlock(q.0, q.1)];
    forall x ensures x in Blocks(steps + more) <==> exists r :: r in done + {q} && IsPairBlock(l, r, x) {
      assert x in Blocks(more) <==> IsPairBlock(l, q, x);
      if x in Blocks(more) { assert q in done + {q}; }
    }
  }

  /** Addresses that are added later do not change the steps of tunnels done before. */
  lemma StepsKeep(l: Layout, steps: seq<Step>, done: set<(string, string)>, node: string, address: string)
    requires StepsDone(l, steps, done) && (node in l.addr ==> l.addr[node] == address)
    ensures StepsDone(l.(addr := l.addr[node := address]), steps, done)
  {
    var l' := l.(addr := l.addr[node := address]);
    forall q, x | q in done ensures IsPairBlock(l, q, x) <==> IsPairBlock(l', q, x) { assert Known(l, q); }
    forall q | q in done ensures Known(l', q) { assert Known(l, q); }
    forall x ensures x in Blocks(steps) <==> exists q :: q in done && IsPairBlock(l', q, x) {
      if x in Blocks(steps) {
        var q :| q in done && IsPairBlock(l, q, x);
        assert IsPairBlock(l', q, x);
      }
    }
  }

  lemma MembersGrow(l: Layout, m: Members, done: set<(string, string)>, q: (string, string))
    requires MembersDone(l, m, done) && q !in done && done <= l.links && q in l.links
    requires forall a, b, c | (a, b) in l.links && (a, c) in l.links && l.name(a, b) == l.name(a, c) :: b == c
    ensures MembersDone(l, m[q.0 := MembersAt(m, q.0) + [l.TunnelMember(q.0, q.1)]], done + {q})
  {
    var m' := m[q.0 := MembersAt(m, q.0) + [l.TunnelMember(q.0, q.1)]];
    forall n
      ensures multiset(MembersAt(m', n)) == multiset(PodMembers(l.ports, n)) + multiset(DoneMembers(l, n, done + {q}))
    {
      assert multiset(MembersAt(m, n)) == multiset(PodMembers(l.ports, n)) + multiset(DoneMembers(l, n, done));
      if n == q.0 { DoneGrows(l, done, q); } else { DoneKeeps(l, done, q, n); }
    }
  }

  lemma DoneKeeps(l: Layout, done: set<(string, string)>, q: (string, string), n: string)
    requires n != q.0
    ensures DoneMembers(l, n, done + {q}) == DoneMembers(l, n, done)
  {}

  lemma DoneGrows(l: Layout, done: set<(string, string)>, q: (string, string))
    requires q !in done && done <= l.links && q in l.links
    requires forall a, b, c | (a, b) in l.links && (a, c) in l.links && l.name(a, b) == l.name(a, c) :: b == c
    ensures multiset(DoneMembers(l, q.0, done + {q}))
            == multiset(DoneMembers(l, q.0, done)) + multiset{l.TunnelMember(q.0, q.1)}
  {
    var t := l.TunnelMember(q.0, q.1);
    forall r | r in done && r.0 == q.0 ensures l.TunnelMember(q.0, r.1) != t {
      assert (q.0, r.1) in l.links && (q.0, q.1) in l.links;
    }
    assert DoneMembers(l, q.0, done + {q}) == DoneMembers(l, q.0, done) + {t};
  }

  /** The bridges of the given nodes, made of collected members. */
  ghost predicate BridgesDone(conn: Conn, parms: BDParms, m: Members, nodes: set<string>, steps: seq<Step>)
  {
    && (forall s | s in steps :: !s.Fail?)
    && (forall x :: x in Blocks(steps) <==>
          exists n :: n in nodes && x == [BridgeEntry(conn, parms, n, SortAll(MembersAt(m, n)))])
  }

  /** One private bridge for each node, in any order. */
  method RenderBridges(conn: Conn, parms: BDParms, m: Members, nodes: set<string>) returns (steps: seq<Step>)
    ensures BridgesDone(conn, parms, m, nodes, steps)
  {
    steps := [];
    var todo := nodes;
    while todo != {}
      invariant todo <= nodes && BridgesDone(conn, parms, m, nodes - todo, steps)
    {
      var n :| n in todo;
      var members := SortMembers(MembersAt(m, n));
      BridgesGrow(conn, parms, m, nodes - todo, steps, n);
      steps := steps + [Add(BridgeEntry(conn, parms, n, members))];
      todo := todo - {n};
      assert nodes - todo == nodes - (todo + {n}) + {n};
    }
    assert nodes - todo == nodes;
  }

  lemma BridgesGrow(conn: Conn, parms: BDParms, m: Members, nodes: set<string>, steps: seq<Step>, n: string)
    requires BridgesDone(conn, parms, m, nodes, steps)
    ensures BridgesDone(conn, parms, m, nodes + {n},
                        steps + [Add(BridgeEntry(conn, parms, n, SortAll(MembersAt(m, n))))])
  {
    var s := Add(BridgeEntry(conn, parms, n, SortAll(MembersAt(m, n))));
    BlocksConcat(steps, [s]);
    assert [s][1..] == [];
    assert Blocks([s]) == [StepEntries(s)];
    forall x ensures x in Blocks(steps + [s]) <==>
                     exists k :: k in nodes + {n} && x == [BridgeEntry(conn, parms, k, SortAll(MembersAt(m, k)))]
    {
      if x == StepEntries(s) { assert n in nodes + {n}; }
    }
  }

  lemma BridgesJoin(conn: Conn, parms: BDParms, m: Members, x: set<string>, y: set<string>, steps: seq<Step>,
                    more: seq<Step>)
    requires BridgesDone(conn, parms, m, x, steps) && BridgesDone(conn, parms, m, y, more)
    ensures BridgesDone(conn, parms, m, x + y, steps + more)
  {
    BlocksConcat(steps, more);
  }

  /** All tunnels done and all bridges made: the steps render the layout. */
  lemma CollectedIsRendering(l: Layout, steps: seq<Step>, m: Members, bridges: seq<Step>)
    requires l.Valid() && StepsDone(l, steps, l.links) && MembersDone(l, m, l.links)
    requires BridgesDone(l.conn, l.parms, m, l.nodes, bridges)
    ensures IsRendering(l, Blocks(steps + bridges)) && forall s | s in steps + bridges :: !s.Fail?
  {
    BlocksConcat(steps, bridges);
    forall n ensures SortAll(MembersAt(m, n)) == SortedOf(l.Bag(n)) { SortedBag(l, m, n); }
    forall x ensures x in Blocks(steps) <==> IsTunnelBlock(l, x) || IsRouteBlock(l, x) {
      PairBlocks(l, steps, x);
    }
    forall x ensures x in Blocks(bridges) <==> IsBridgeBlock(l, x) {
      if x in Blocks(bridges) {
        var n :| n in l.nodes && x == [BridgeEntry(l.conn, l.parms, n, SortAll(MembersAt(m, n)))];
        assert x == l.BridgeBlock(n);
      }
      if IsBridgeBlock(l, x) {
        var n :| n in l.nodes && x == l.BridgeBlock(n);
        assert x == [BridgeEntry(l.conn, l.parms, n, SortAll(MembersAt(m, n)))];
      }
    }
  }

  lemma PairBlocks(l: Layout, steps: seq<Step>, x: seq<KV>)
    requires l.Valid() && StepsDone(l, steps, l.links)
    ensures x in Blocks(steps) <==> IsTunnelBlock(l, x) || IsRouteBlock(l, x)
  {
    if x in Blocks(steps) {
      var q :| q in l.links && IsPairBlock(l, q, x);
      assert (q.0, q.1) in l.links;
    }
    if IsTunnelBlock(l, x) {
      var a, b :| (a, b) in l.links && x == l.TunnelBlock(a, b);
      assert IsPairBlock(l, (a, b), x);
    }
    if IsRouteBlock(l, x) {
      var a, b :| (a, b) in l.links && x == l.RouteBlock(a, b);
      assert IsPairBlock(l, (a, b), x);
    }
  }

  lemma SortedBag(l: Layout, m: Members, n: string)
    requires l.Valid() && MembersDone(l, m, l.links)
    ensures SortAll(MembersAt(m, n)) == SortedOf(l.Bag(n))
  {
    var ms := MembersAt(m, n);
    assert DoneMembers(l, n, l.links) == l.TunnelMembers(n);
    assert multiset(ms) == l.Bag(n);
    forall x, y | x in ms && y in ms && x.name == y.name ensures x == y {
      assert x in multiset(ms) && y in multiset(ms);
      BagNames(l, n, x, y);
    }
    SortAllOfBag(ms);
  }

  /** Pod interfaces that stand once, at nodes of the connection, under names that no tunnel or loopback has. */
  ghost predicate PortsFit(ports: seq<Port>, nodes: set<string>)
  {
    && (forall p | p in ports :: p.node in nodes && !(TUNNEL_PREFIX <= p.ifName))
    && (forall i, j | 0 <= i < j < |ports| :: ports[i] != ports[j])
  }

  /** The pod interfaces become bridge members of their nodes in split-horizon group 0. */
  method CollectPods(ports: seq<Port>) returns (m: Members)
    ensures forall n :: MembersAt(m, n) == PodMembers(ports, n)
  {
    m := map[];
    for i := 0 to |ports|
      invariant forall n :: MembersAt(m, n) == PodMembers(ports[..i], n)
    {
      assert ports[..i + 1][..i] == ports[..i];
      var node := ports[i].node;
      m := m[node := MembersAt(m, node) + [Member(ports[i].ifName, false, 0)]];
    }
    assert ports[..|ports|] == ports;
  }

  /** The layout with the addresses that the nodes have by now. */
  ghost function At(l: Layout, addr: map<string, string>): Layout { l.(addr := addr) }

  /** Different tunnels of a node have different names. */
  ghost predicate NamesDiffer(l: Layout)
  {
    forall a, b, c | (a, b) in l.links && (a, c) in l.links && l.name(a, b) == l.name(a, c) :: b == c
  }

  /** What has been collected once the given tunnels are done. */
  ghost predicate Collected(l: Layout, steps: seq<Step>, m: Members, done: set<(string, string)>)
  {
    done <= l.links && StepsDone(l, steps, done) && MembersDone(l, m, done)
  }

  lemma CollectedKeeps(l: Layout, steps: seq<Step>, m: Members, done: set<(string, string)>, node: string,
                       address: string)
    requires Collected(l, steps, m, done) && (node in l.addr ==> l.addr[node] == address)
    ensures Collected(At(l, l.addr[node := address]), steps, m, done)
  {
    var l' := At(l, l.addr[node := address]);
    StepsKeep(l, steps, done, node, address);
    forall n ensures DoneMembers(l, n, done) == DoneMembers(l', n, done) {}
  }

  lemma CollectedGrows(l: Layout, steps: seq<Step>, m: Members, done: set<(string, string)>, a: string, b: string)
    requires Collected(l, steps, m, done) && NamesDiffer(l) && (a, b) in l.links && (a, b) !in done && Known(l, (a, b))
    ensures Collected(l, steps + TunnelSteps(l.conn, l.opts, l.specs, a, b, l.name(a, b), l.addr[a], l.addr[b]),
                      m[a := MembersAt(m, a) + [l.TunnelMember(a, b)]], done + {(a, b)})
  {
    StepsGrow(l, steps, done, (a, b));
    MembersGrow(l, m, done, (a, b));
  }

  lemma NothingCollected(l: Layout, m: Members)
    requires forall n :: MembersAt(m, n) == PodMembers(l.ports, n)
    ensures Collected(l, [], m, {})
  {
    assert Blocks([]) == [];
  }

  /** The steps of one tunnel, with the addresses that its ends have got. */
  lemma TunnelCollected(l: Layout, addr: map<string, string>, a: string, b: string, fromAddr: string, toAddr: string,
                        steps: seq<Step>, m: Members, done: set<(string, string)>)
    requires Collected(At(l, addr), steps, m, done) && NamesDiffer(l) && (a, b) in l.links && (a, b) !in done
    requires a in l.specs && b in l.specs && (a in addr ==> addr[a] == fromAddr)
    requires b in addr[a := fromAddr] ==> addr[a := fromAddr][b] == toAddr
    ensures Collected(At(l, addr[a := fromAddr][b := toAddr]),
                      steps + TunnelSteps(l.conn, l.opts, l.specs, a, b, l.name(a, b), fromAddr, toAddr),
                      m[a := MembersAt(m, a) + [Member(l.name(a, b), false, l.group)]], done + {(a, b)})
  {
    CollectedKeeps(At(l, addr), steps, m, done, a, fromAddr);
    CollectedKeeps(At(l, addr[a := fromAddr]), steps, m, done, b, toAddr);
    CollectedGrows(At(l, addr[a := fromAddr][b := toAddr]), steps, m, done, a, b);
  }

  /** The addresses of both ends of a tunnel, as far as they can be had. */
  method TunnelAddresses(book: AddressBook, a: string, b: string) returns (fromAddr: string, toAddr: string, ok: bool)
    requires book.Valid()
    modifies book, book.pool
    ensures book.Valid() && Spent(old(book.Balance()), book.Balance(), {a, b})
    ensures ok <==> Enough(old(book.Balance()), {a, b})
    ensures a in old(book.Assigned()) ==> ok ==> fromAddr == old(book.Assigned())[a]
    ensures ok ==> (var addr := old(book.Assigned())[a := fromAddr];
                    (b in addr ==> toAddr == addr[b]) && book.Assigned() == addr[b := toAddr])
  {
    toAddr := "";
    ghost var x := book.Balance();
    fromAddr, ok := book.AllocateVxlanAddress(a);
    ghost var y := book.Balance();
    if ok { toAddr, ok := book.AllocateVxlanAddress(b); }
    EnoughForTwo(x, y, book.Balance(), a, b, ok);
  }

  /** One tunnel: the addresses of both ends, the steps of its entries, and its place in the bridge. */
  method RenderTunnel(book: AddressBook, a: string, b: string, name: string, conn: Conn, opts: Options,
                      specs: NodeSpecs, group: nat, steps0: seq<Step>, m0: Members, ghost l: Layout,
                      ghost done: set<(string, string)>, ghost ends: set<string>)
    returns (steps: seq<Step>, m: Members, ok: bool)
    requires book.Valid() && NamesDiffer(l) && Collected(At(l, book.Assigned()), steps0, m0, done)
    requires conn == l.conn && opts == l.opts && specs == l.specs && group == l.group && name == l.name(a, b)
    requires a in specs && b in specs && (opts.createRoutes ==> Addressed(opts, specs[b]))
    requires (a, b) in l.links && (a, b) !in done && ends == {a, b}
    modifies book, book.pool
    ensures book.Valid() && Spent(old(book.Balance()), book.Balance(), ends)
    ensures ok <==> Enough(old(book.Balance()), ends)
    ensures ok ==> Collected(At(l, book.Assigned()), steps, m, done + {(a, b)})
  {
    steps, m := steps0, m0;
    ghost var addr := book.Assigned();
    var fromAddr, toAddr;
    fromAddr, toAddr, ok := TunnelAddresses(book, a, b);
    if !ok { return; }
    var entries := RenderLoopbackAndRoutes(opts, specs, a, b, fromAddr, toAddr);
    TunnelCollected(l, addr, a, b, fromAddr, toAddr, steps, m, done);
    steps := steps + [Add(VxlanEntry(a, name, conn.vni, fromAddr, toAddr)), AddThrough(entries)];
    m := m[a := MembersAt(m, a) + [Member(name, false, group)]];
  }

  lemma {:induction false} StillReported(steps: seq<Step>, more: seq<Step>)
    requires Messages(more) != []
    ensures Messages(steps + more) != []
    decreases steps
  {
    if steps == [] {
      assert steps + more == more;
    } else {
      assert (steps + more)[1..] == steps[1..] + more;
      StillReported(steps[1..], more);
    }
  }
}
