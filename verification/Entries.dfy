/** The key/value entries that the controller writes for the VPP agents. */
module Entries {
  import opened Unsigned

  /** Entry keys; the agent's label and the builder's arguments can be read off a key. */
  datatype Key =
    | InterfaceKey(agent: string, name: string)
    | LinuxInterfaceKey(agent: string, name: string)
    | BridgeKey(agent: string, name: string)
    | XConnectKey(agent: string, rx: string)
    | RouteKey(agent: string, vrf: u32, dst: string, nextHop: string)
    | ArpKey(agent: string, iface: string, phys: string)

  datatype InterfaceType = Ethernet | Loopback | VxlanTunnel | Memif | Tap | AfPacket

  datatype Tunnel = NoTunnel | Vxlan(src: string, dst: string, vni: u32)

  /** An interface of a VPP; what sets memif and tap interfaces apart is kept as text. */
  datatype Iface = Iface(name: string, ifType: InterfaceType, enabled: bool, physAddress: string,
                         ipAddresses: seq<string>, mtu: u32, rxMode: string, vrf: u32,
                         tunnel: Tunnel, parameters: string)

  /** A Linux interface, one end of a veth pair; its namespace and its name on the host are kept as text. */
  datatype LinuxIface = LinuxIface(name: string, enabled: bool, physAddress: string, ipAddresses: seq<string>,
                                   mtu: u32, peer: string, parameters: string)

  /** An interface in a bridge, with its split-horizon group; group 0 splits nothing. */
  datatype Member = Member(name: string, bvi: bool, shg: nat)

  datatype BDParms = BDParms(flood: bool, unknownUnicastFlood: bool, forward: bool, learn: bool,
                             arpTermination: bool, macAge: u32)

  datatype Bridge = Bridge(name: string, parms: BDParms, members: seq<Member>)

  datatype Route = Route(vrf: u32, description: string, dst: string, nextHop: string,
                         weight: u32, outgoing: string, preference: u32)

  datatype Body =
    | InterfaceBody(iface: Iface)
    | LinuxInterfaceBody(linux: LinuxIface)
    | BridgeBody(bridge: Bridge)
    | XConnectBody(rx: string, tx: string)
    | RouteBody(route: Route)
    | ArpBody(interface: string, ip: string, phys: string)
    | UnknownBody(entryType: string)

  /** An entry: the key and the value, whose constructor is the entry type. */
  datatype KV = KV(key: Key, body: Body)

  function EntryType(b: Body): string
  {
    match b
    case InterfaceBody(_) => "interface"
    case LinuxInterfaceBody(_) => "linuxif"
    case BridgeBody(_) => "l2bd"
    case RouteBody(_) => "l3vrf"
    case XConnectBody(_, _) => "l2xc"
    case ArpBody(_, _, _) => "arp"
    case UnknownBody(t) => t
  }

  /** The comparison that decides whether an entry is sent again. */
  predicate Equal(a: KV, b: KV)
  {
    if EntryType(a.body) != EntryType(b.body) || a.key != b.key then false else
    match (a.body, b.body)
    case (InterfaceBody(x), InterfaceBody(y)) => x == y
    case (BridgeBody(x), BridgeBody(y)) => x == y
    case (XConnectBody(_, _), XConnectBody(_, _)) => a.body == b.body
    case (LinuxInterfaceBody(x), LinuxInterfaceBody(y)) => x == y
    case (RouteBody(x), RouteBody(y)) => x.(description := "") == y.(description := "")
    case (ArpBody(_, _, _), ArpBody(_, _, _)) => a.body == b.body
    case _ => false
  }

  /** The entry type that belongs to a key. */
  predicate TypedByKey(kv: KV)
  {
    match kv.key
    case InterfaceKey(_, _) => kv.body.InterfaceBody?
    case LinuxInterfaceKey(_, _) => kv.body.LinuxInterfaceBody?
    case BridgeKey(_, _) => kv.body.BridgeBody?
    case XConnectKey(_, _) => kv.body.XConnectBody?
    case RouteKey(_, _, _, _) => kv.body.RouteBody?
    case ArpKey(_, _, _) => kv.body.ArpBody?
  }

  /** The name of the entry type that belongs to a key. */
  function KeyType(k: Key): string
  {
    match k
    case InterfaceKey(_, _) => "interface"
    case LinuxInterfaceKey(_, _) => "linuxif"
    case BridgeKey(_, _) => "l2bd"
    case XConnectKey(_, _) => "l2xc"
    case RouteKey(_, _, _, _) => "l3vrf"
    case ArpKey(_, _, _) => "arp"
  }

  lemma TypedEntryType(kv: KV)
    requires TypedByKey(kv)
    ensures EntryType(kv.body) == KeyType(kv.key)
  {}

  /** A map from keys to entries of those keys, as the RAM cache and the transaction maps are. */
  ghost predicate Keyed(m: map<Key, KV>) { forall k | k in m :: m[k].key == k && TypedByKey(m[k]) }

  /** What an entry says once the description of a route is left aside. */
  function Meaning(b: Body): Body
  {
    match b
    case RouteBody(r) => RouteBody(r.(description := ""))
    case _ => b
  }

  /** On entries of a known type Equal is the equivalence of having one key and one meaning. */
  lemma EqualIsSameMeaning(a: KV, b: KV)
    requires TypedByKey(a) || TypedByKey(b)
    ensures Equal(a, b) <==> a.key == b.key && Meaning(a.body) == Meaning(b.body)
  {}

  /** Equal holds of an entry and itself exactly if the type is known. */
  lemma EqualReflexiveIfKnown(a: KV)
    ensures Equal(a, a) <==> !a.body.UnknownBody?
  {}

  lemma EqualSymmetric(a: KV, b: KV)
    ensures Equal(a, b) <==> Equal(b, a)
  {}

  lemma EqualTransitive(a: KV, b: KV, c: KV)
    requires Equal(a, b) && Equal(b, c)
    ensures Equal(a, c)
  {}

  /** Renderings that agree up to Equal. */
  ghost predicate PointwiseEqual(m: map<Key, KV>, n: map<Key, KV>)
  {
    m.Keys == n.Keys && forall k | k in m :: Equal(m[k], n[k])
  }

  /** The values of a map of entries, as they stand in etcd. */
  function Bodies(m: map<Key, KV>): map<Key, Body> { map k | k in m :: m[k].body }
}
