/** The entries that a node renders for itself: its Ethernet interfaces and bridges, networknode.go. */
module Nodes {
  import opened Unsigned
  import opened Entries
  import opened Entities
  import opened Overlay
  import opened Layouts
  import opened Collecting
  import opened PodInterfaces

  /** An interface of a node; whether its status could be initialised, and its addresses, are given. */
  datatype NodeIf = NodeIf(name: string, ethernet: bool, bypass: bool, ready: bool, enabled: bool, mac: string,
                           ips: seq<string>, mtu: u32, rxMode: string)
  {
    /** The node's renderer makes an entry for it. */
    predicate Rendered() { ethernet && !bypass }
  }

  /** A bridge of a node, with its parameters as they are resolved. */
  datatype NodeBridge = NodeBridge(name: string, parms: BDParms)

  datatype Node = Node(name: string, valid: bool, ifaces: seq<NodeIf>, bridges: seq<NodeBridge>)

  function EthernetEntry(node: string, i: NodeIf): KV
  {
    KV(InterfaceKey(node, i.name),
       InterfaceBody(Iface(i.name, Ethernet, i.enabled, i.mac, i.ips, i.mtu, i.rxMode, 0, NoTunnel, "")))
  }

  function NodeBridgeName(node: string, name: string): string { NODE_BRIDGE_PREFIX + node + "_" + name }

  function NodeBridgeEntry(node: string, b: NodeBridge): KV
  {
    KV(BridgeKey(node, NodeBridgeName(node, b.name)), BridgeBody(Bridge(NodeBridgeName(node, b.name), b.parms, [])))
  }

  /** The entries of the first interfaces, and of the first bridges. */
  function EthernetEntries(n: Node, k: nat): seq<KV>
    requires k <= |n.ifaces|
  {
    if k == 0 then [] else
      var i := n.ifaces[k - 1];
      EthernetEntries(n, k - 1) + if i.Rendered() then [EthernetEntry(n.name, i)] else []
  }

  function NodeBridgeEntries(n: Node, k: nat): seq<KV>
    requires k <= |n.bridges|
  {
    if k == 0 then [] else NodeBridgeEntries(n, k - 1) + [NodeBridgeEntry(n.name, n.bridges[k - 1])]
  }

  function NodeEntries(n: Node): seq<KV>
  {
    EthernetEntries(n, |n.ifaces|) + NodeBridgeEntries(n, |n.bridges|)
  }

  /** The entry of an Ethernet interface that the node renders, with its own addresses. */
  ghost predicate IsEthernet(n: Node, i: NodeIf, kv: KV)
  {
    && i in n.ifaces && i.ethernet && !i.bypass && kv.key == InterfaceKey(n.name, i.name) && kv.body.InterfaceBody?
    && var f := kv.body.iface;
    && f.name == i.name && f.ifType == Ethernet && f.enabled == i.enabled && f.physAddress == i.mac
    && f.ipAddresses == i.ips && f.mtu == i.mtu && f.rxMode == i.rxMode && f.vrf == 0 && f.tunnel == NoTunnel
    && f.parameters == ""
  }

  /** The entry of a bridge of the node, which is empty. */
  ghost predicate IsNodeBridge(n: Node, b: NodeBridge, kv: KV)
  {
    var name := "L2BD_" + n.name + "_" + b.name;
    b in n.bridges && kv.key == BridgeKey(n.name, name) && kv.body == BridgeBody(Bridge(name, b.parms, []))
  }

  lemma {:induction false} EthernetEntriesAre(n: Node, k: nat, kv: KV)
    requires k <= |n.ifaces|
    ensures kv in EthernetEntries(n, k) <==> exists j | 0 <= j < k :: IsEthernet(n, n.ifaces[j], kv)
  {
    if k > 0 { EthernetEntriesAre(n, k - 1, kv); }
  }

  lemma {:induction false} NodeBridgeEntriesAre(n: Node, k: nat, kv: KV)
    requires k <= |n.bridges|
    ensures kv in NodeBridgeEntries(n, k) <==> exists j | 0 <= j < k :: IsNodeBridge(n, n.bridges[j], kv)
  {
    if k > 0 { NodeBridgeEntriesAre(n, k - 1, kv); }
  }

  /** The entries of a node are those of its Ethernet interfaces and of its bridges. */
  lemma NodeEntriesAre(n: Node, kv: KV)
    ensures kv in NodeEntries(n) <==> (exists i :: IsEthernet(n, i, kv)) || (exists b :: IsNodeBridge(n, b, kv))
  {
    EthernetEntriesAre(n, |n.ifaces|, kv);
    NodeBridgeEntriesAre(n, |n.bridges|, kv);
    if i :| IsEthernet(n, i, kv) { var j :| 0 <= j < |n.ifaces| && n.ifaces[j] == i; }
    if b :| IsNodeBridge(n, b, kv) { var j :| 0 <= j < |n.bridges| && n.bridges[j] == b; }
  }

  /** The first interfaces can be rendered. */
  predicate IfacesReady(n: Node, k: nat)
    requires k <= |n.ifaces|
  {
    forall j | 0 <= j < k :: n.ifaces[j].Rendered() ==> n.ifaces[j].ready
  }

  /** Renders the Ethernet interfaces of a node in order, up to the first that fails. */
  method RenderNodeInterfaces(n: Node) returns (steps: seq<Step>, ok: bool)
    ensures ok <==> IfacesReady(n, |n.ifaces|)
    ensures ok ==> steps == Adds(EthernetEntries(n, |n.ifaces|))
    ensures !ok ==> Messages(steps) != []
  {
    steps, ok := [], true;
    for k := 0 to |n.ifaces|
      invariant IfacesReady(n, k) && steps == Adds(EthernetEntries(n, k))
    {
      var i := n.ifaces[k];
      assert EthernetEntries(n, k) + [] == EthernetEntries(n, k);
      if i.ethernet {
        if !i.bypass {
          if !i.ready {
            StillReported(steps, [Fail("node interface")]);
            return steps + [Fail("node interface")], false;
          }
          AddsOneMore(EthernetEntries(n, k), EthernetEntry(n.name, i));
          steps := steps + [Add(EthernetEntry(n.name, i))];
        }
      }
    }
    ok := true;
  }

  /** Renders the bridges of a node. */
  method RenderNodeL2BDs(n: Node) returns (steps: seq<Step>)
    ensures steps == Adds(NodeBridgeEntries(n, |n.bridges|))
  {
    steps := [];
    for k := 0 to |n.bridges|
      invariant steps == Adds(NodeBridgeEntries(n, k))
    {
      AddsOneMore(NodeBridgeEntries(n, k), NodeBridgeEntry(n.name, n.bridges[k]));
      steps := steps + [Add(NodeBridgeEntry(n.name, n.bridges[k]))];
    }
  }

  /** The steps are those of a node: all its entries, or a failure. */
  ghost predicate NodeDone(n: Node, steps: seq<Step>)
  {
    if IfacesReady(n, |n.ifaces|) then steps == Adds(NodeEntries(n)) else Messages(steps) != []
  }

  /** Renders a node: its interfaces, and then its bridges. */
  method RenderNode(n: Node) returns (steps: seq<Step>, ok: bool)
    ensures NodeDone(n, steps) && (ok <==> IfacesReady(n, |n.ifaces|))
  {
    steps, ok := RenderNodeInterfaces(n);
    if !ok { return; }
    var more := RenderNodeL2BDs(n);
    AddsConcat(EthernetEntries(n, |n.ifaces|), NodeBridgeEntries(n, |n.bridges|));
    steps := steps + more;
  }

  /** Renders all nodes; one that fails does not keep the next from being rendered. */
  method RenderNodes(nodes: seq<Node>) returns (steps: seq<seq<Step>>)
    ensures NodesDone(nodes, steps)
  {
    steps := [];
    for k := 0 to |nodes|
      invariant NodesDone(nodes[..k], steps)
    {
      var more, ok := RenderNode(nodes[k]);
      steps := steps + [more];
    }
    assert nodes[..|nodes|] == nodes;
  }

  ghost predicate NodesDone(nodes: seq<Node>, steps: seq<seq<Step>>)
  {
    |steps| == |nodes| && forall k | 0 <= k < |nodes| :: NodeDone(nodes[k], steps[k])
  }

  /** No interface that a node renders bears the name of a generated tunnel. */
  ghost predicate PlainNames(n: Node, k: nat)
    requires k <= |n.ifaces|
  {
    forall j | 0 <= j < k :: n.ifaces[j].Rendered() ==> !(TUNNEL_PREFIX <= n.ifaces[j].name)
  }

  lemma {:induction false} EthernetPlain(n: Node, k: nat)
    requires k <= |n.ifaces|
    ensures Plain(EthernetEntries(n, k)) <==> PlainNames(n, k)
  {
    if k > 0 {
      var i := n.ifaces[k - 1];
      EthernetPlain(n, k - 1);
      PlainConcat(EthernetEntries(n, k - 1), if i.Rendered() then [EthernetEntry(n.name, i)] else []);
      assert i.Rendered() ==> EthernetEntry(n.name, i) in [EthernetEntry(n.name, i)];
    }
  }

  lemma {:induction false} NodeBridgesPlain(n: Node, k: nat)
    requires k <= |n.bridges|
    ensures Plain(NodeBridgeEntries(n, k))
  {
    if k > 0 { NodeBridgesPlain(n, k - 1); }
  }

  /**
   * The entries of a node interfere with no overlay exactly if no interface that it renders bears the name of a
   * generated tunnel.
   */
  lemma NodeEntriesArePlain(n: Node)
    ensures Plain(NodeEntries(n)) <==> PlainNames(n, |n.ifaces|)
  {
    EthernetPlain(n, |n.ifaces|);
    NodeBridgesPlain(n, |n.bridges|);
    PlainConcat(EthernetEntries(n, |n.ifaces|), NodeBridgeEntries(n, |n.bridges|));
  }
}
