# Verified model of the SFC controller

The SFC controller turns a logical topology - nodes, services, pod placements and node overlays - into
key/value entries that VPP agents read from etcd. This project models its hard core in Dafny and proves what
that core is for: that etcd ends up holding the rendering of the current configuration, that the rendered
overlays forward frames as intended, and that the identifiers in them are unique.

The modules, from the bottom up:

- `Text`, `Unsigned`, `Addresses`, `Runs`, `Words64`: printed numbers and names, uint32 arithmetic, dotted
  addresses, run lists, and words of 64 bits.
- `Bitmaps`, `Vnis`, `Ipam`, `PoolNumbers`: the bitmap over an array of words, the VNI allocator over it, the
  next-fit address pool, and the pools by name. Each class is proved against a set or a pool value, and the
  laws are proved over every run of calls.
- `Entries`, `Commit`, `RenderTxn`, `Entities`: entries and their approximate equality, the value of a commit,
  the transaction with its nested levels and failing puts, and the rendering of entities with the reload after
  a restart.
- `PodMap`, `MessageLoop`: the merge of pod placements with its change detector, and the loop that applies
  configuration messages and renders. What every sequence of messages leads to - placements, configuration, statuses,
  pending renderings, cache and etcd - is stated by the last message that decides it.
- `SortedMembers`, `Layers`, `Overlay`, `Layouts`, `Tunnels`, `Collecting`: sorted bridge members, entries laid
  over one another, what an overlay consists of, the addresses of its endpoints, and how the renderers' loops
  collect it.
- `Forwarding`, `Flooding`: what VPPs do with a flooded frame under a configuration, as paths through bridges
  and tunnels, and exactly-once delivery in a split-horizon mesh and in a hub and spoke.
- `Mesh`, `HubAndSpoke`, `PointToPoint`, `Wires`: the renderers of the VXLAN mesh, of the hub and spoke, and of
  the L2PP cross-connects.
- `PodInterfaces`, `Nodes`: the entries of the pods' own memif and veth interfaces and of the nodes' Ethernet
  interfaces and bridges, which share the transaction with the overlay.
- `Coexisting`, `Services`, `Hubs`, `HubLeak`: any number of connections of both kinds over one overlay, with their
  pod interfaces, in any number of services; when their frames mix; and a rendered service in which they do.
- `Interfaces`: pool numbers and addresses of interfaces over renders, deletions and restarts at any time, with the
  static addresses that drawn numbers have to keep clear of.
- `Deployment`, `Running`: the layers put together, from the renderers of nodes and services to what stands in etcd
  after the commit, and to what the VPPs do whenever the message loop is in sync.

Go's map iteration is modelled by loops that pick any remaining key, so every statement holds for all iteration
orders. A put that fails may or may not have reached etcd. Renderers are sequences of steps (add an entry, add
entries through a temporary record, give up), and the transaction engine executes any such sequence.

Whether a renderer succeeds is stated as an equivalence too: it does exactly if its interfaces can be rendered, there are
VNIs left, and the address book has or can give an address for every endpoint; and where there is enough for all
services, a service that fails does not keep another from being rendered.

Properties that turned out to hold only under a condition, which is stated and proved as an equivalence, with an
input on which the property fails:

- A successful commit makes cache and etcd agree exactly if it touches every key on which they differ; a failed
  commit followed by a return to the former configuration does not. Over every run they differ exactly at keys that
  landed in a stopped commit and were not touched since (`Commit.AgreesExactlyIfTouched`,
  `Commit.RunDiffersExactlyAt`, `Commit.ChangedRetryNeedNotRepair`).
- The message loop follows a nil status when an entity is deleted that no rendering has found valid since its last
  update. For every sequence of messages and whatever is rendered, it survives exactly if there is no such deletion and
  no update of an invalid service (`MessageLoop.SurvivesExactlyIf`). Two inputs that it does not survive are an update
  and a deletion while rendering is disabled (`MessageLoop.DeletedBeforeRendering`), and a deletion after a rendering
  that found the updated service not valid (`MessageLoop.DeletedWhenNotValid`). Under the premise that every rendering
  finds the entities without a status valid, the messages alone decide (`MessageLoop.SurvivesIfRendered`).
- All connections of a hub-and-spoke overlay use one VNI, so a connection keeps its frames to itself exactly if
  it shares no spoke with another one, of its own or another service, or both have just the one spoke
  (`Hubs.IsolatedExactlyIf`, `Deployment.HubsIsolatedExactlyIf`, `HubLeak.SharedSpokesAreReached`).
- Generated tunnel names tell the services over a hub and spoke apart if spokes have no underscore in their names, and
  need not otherwise (`Hubs.HostNamesTell`, `Hubs.NamesCollide`).
- A stored pool number is sure to be marked again at a restart exactly if all numbers of the same interface can
  be marked; a deleted pool can make a number of another pool go to two interfaces
  (`Interfaces.EveryOrderMarksExactlyIf`, `Interfaces.DeletedPoolSharesNumber`).
- A number that is drawn is not that of an address, static or not, that an interface in memory has, exactly if the
  address is written without a prefix length, since the source's parser takes no other (`Interfaces.UnclaimedIs`,
  `Ipam.InsideExactlyIf`, `Interfaces.PrefixedStaticIsDrawn`).
- Rendering an interface leaves numbers in use that nothing has exactly if a pool that it names has none left and one that
  is named before that has (`Interfaces.LeaksExactlyIf`, `Interfaces.LeakExample`).
- Ids marked out of range can make a pool report that it is full (`Ipam.FailsFalselyExactlyIf`,
  `Ipam.FailsFalselyAt200`), the default range of a /32 pool wraps (`Ipam.DefaultRangeFits`), and a reversed VNI
  range hands out numbers above its end (`Vnis.InRangeExactlyIf`, `Vnis.ReversedRangeLeaves`).
- The entries of a pod interface or a node leave the overlays alone exactly if the pod's own interface, or the node's
  Ethernet interfaces, do not bear the name of a generated tunnel (`PodInterfaces.PodEntriesArePlain`,
  `Nodes.NodeEntriesArePlain`).

`dafny verify dfyconfig.toml` checks the whole project.

## Model

| member | source | states |
|---|---|---|
| `Running.RunningMeshesFloodOnce` | plugins/controller/model_mgrs.go:96-167 | The message loop and the overlays together: whenever the loop is in sync, the pod interfaces of each mesh connection of each service whose status is up are all there, and a frame floods exactly once among them, and reaches nothing else, over at most two bridges |
| `Running.RunningWiresMatch` | plugins/controller/model_mgrs.go:96-167 | Likewise both ends of each L2PP connection of each service that is up are there and join each other and nothing else (if and only if) |
| `Running.RunningHubsFloodOnce` | plugins/controller/model_mgrs.go:96-167 | Likewise for each hub-and-spoke connection of each service that is up, whose nodes no other connection of any service has: its interfaces are there and flood exactly once, over at most three bridges |
| `Deployment.MeshesFloodOnce` | plugins/controller/networkservice.go:320-384 | For any number of services over an overlay, each with any number of mesh and L2PP connections and with memif, veth and Ethernet pod interfaces: where etcd holds their job, all pod interfaces of a mesh connection of a service that rendered without an error have their entry, and a frame from one of them reaches every other one exactly once and nothing else |
| `Deployment.WiresMatch` | plugins/controller/networknodeoverlay_vxlanmesh.go:157-240 | In the same setting: both ends of an L2PP connection have their entry, and one reaches exactly the other (if and only if) |
| `Deployment.HubsFloodOnce` | plugins/controller/networknodeoverlay_vxlanhubandspoke.go:57-148 | For any number of services over one hub and spoke: where etcd holds their job, a rendered connection whose nodes no other rendered connection has floods exactly once among its own pod interfaces, which are all there, over at most three bridges |
| `Deployment.HubsIsolatedExactlyIf` | plugins/controller/networknodeoverlay_vxlanhubandspoke.go:54-54 | Services over one hub and spoke share its VNI: in etcd a connection keeps its frames to itself if and only if with every other connection of any of the services it has no node in common, or both have just one and the same node |
| `Deployment.PortsAreThere` | plugins/controller/networkservice_if.go:105-125 | Where etcd holds the job, every pod interface of a rendered connection has an entry that is no tunnel, or is an Ethernet interface that its node has |
| `Deployment.DeployedMeshesFloodOnce` | plugins/controller/rendertxn.go:116-177 | From any state in which cache and etcd agree, after the commit of the job the mesh connections flood exactly once |
| `Deployment.DeployedWiresMatch` | plugins/controller/rendertxn.go:116-177 | After the commit of the job an end of an L2PP connection reaches exactly the other end (if and only if) |
| `Deployment.DeployedHubsFloodOnce` | plugins/controller/rendertxn.go:116-177 | After the commit of the job the hub-and-spoke connections that share no node flood exactly once |
| `Deployment.RenderAll` | plugins/controller/plugin_impl_controller.go:221-225 | All nodes and then all services are rendered. No service fails exactly if all connections can be rendered and there are enough VNIs and tunnel addresses; and where there are enough, each service is rendered exactly if its own connections can be, whatever becomes of the others |
| `Deployment.NodesComeFirst` | plugins/controller/plugin_impl_controller.go:221-225 | In the job of a configuration every node comes before every service |
| `Deployment.NodeContributes` | plugins/controller/networknode.go:396-431 | To that job a node adds exactly the entries of its Ethernet interfaces and bridges, if its configuration is valid and all those interfaces have a status, and else nothing |
| `Deployment.WholeJobRenders` | plugins/controller/plugin_impl_controller.go:221-225 | What is rendered for nodes and services, whether or not some of them fail, makes up a well-typed job in which the entries of the nodes leave the services alone, so the end-to-end results apply to every rendering of any configuration of nodes and services over an overlay |
| `Deployment.CommittedHolds` | plugins/controller/rendertxn.go:142-171 | After a commit etcd holds the blocks of all entities of the job, up to route descriptions |
| `Deployment.SyncedHolds` | plugins/controller/rendertxn.go:142-171 | And so it does whenever cache, etcd and statuses are in sync with the job |
| `Deployment.IsolationCarriesOver` | plugins/controller/vppagent/database.go:115-123 | Isolation does not depend on what `Equal` ignores |
| `Nodes.RenderNode` | plugins/controller/networknode.go:396-431 | A node's Ethernet interfaces and then its bridges; it fails exactly if one of its interfaces has no status, with a message |
| `Nodes.RenderNodeInterfaces` | plugins/controller/networknode.go:474-511 | The loop over the interfaces renders exactly the Ethernet ones that do not bypass the renderer, in order, up to the first without a status |
| `Nodes.RenderNodeL2BDs` | plugins/controller/networknode.go:440-472 | The loop over the bridges adds an empty bridge for each, under the node's name for it |
| `Nodes.NodeEntriesAre` | plugins/controller/networknode.go:440-511 | An entry is a node's if and only if it is one of its Ethernet interfaces that does not bypass the renderer, with its own MAC and addresses, or one of its bridges, which is empty; every field is stated |
| `Nodes.RenderNodes` | plugins/controller/networknode.go:434-438 | All nodes are rendered, whether or not one of them fails |
| `Nodes.NodeEntriesArePlain` | plugins/controller/networknode.go:440-511 | A node's entries interfere with no overlay if and only if no interface that it renders bears the name of a generated tunnel |
| `Deployment.ServicesAreTyped` | plugins/controller/networkservice.go:334-384 | Everything that a service's renderers add without an error is filed under a key of its own type, as recording and reloading need it |
| `Deployment.ServicesAreApart` | plugins/controller/idapi/vxlan.go:51-60 | One VNI allocator for all services, service names and interfaces used once keep all connections of all services apart |
| `Deployment.JobBlocks` | plugins/controller/networkservice.go:334-384 | The blocks of a job are those of its services' connections and pod interfaces, and harmless ones |
| `Deployment.RenderingIsBlocks` | plugins/controller/rendertxn.go:83-85 | A rendering is what the entities that render without error add, laid over each other in order |
| `Deployment.ArrivalCarriesOver` | plugins/controller/vppagent/database.go:115-123 | Where frames through cross-connects arrive does not depend on what `Equal` ignores |
| `Deployment.CommittedIsRendered` | plugins/controller/rendertxn.go:142-171 | After a commit etcd holds the rendering: every key with the very value, routes up to their descriptions, from any agreeing state |
| `Deployment.FloodCarriesOver` | plugins/controller/vppagent/database.go:115-123 | Exactly-once flooding does not depend on what `Equal` ignores |
| `Mesh.RenderedMeshFloodsOnce` | plugins/controller/networknodeoverlay_vxlanmesh.go:61-131 | For every node set and pod placement: a frame entering a pod interface of a rendered mesh reaches every other one exactly once, never returns, reaches nothing else, and crosses at most two bridges |
| `Mesh.RenderConnL2MPVxlanMesh` | plugins/controller/networknodeoverlay_vxlanmesh.go:26-134 | The renderer draws the VNI that the allocator's specification gives; on success its steps are a rendering of the full mesh, for whatever order of nodes; it succeeds exactly if a VNI is left and there is an address for each of the nodes, at hand or in the pool, and it spends one for each node that had none and no more; a failure leaves a status message |
| `Mesh.RenderMesh` | plugins/controller/networknodeoverlay_vxlanmesh.go:61-131 | With the VNI known, the nested loops and the bridge loop render the mesh of the nodes with distinct tunnel addresses, exactly if there are enough |
| `Mesh.RenderMeshTunnels` | plugins/controller/networknodeoverlay_vxlanmesh.go:62-124 | The nested loops produce the tunnels of all ordered pairs of different nodes, each once, and the matching bridge members, exactly if there are enough addresses |
| `Mesh.RenderTunnelsFrom` | plugins/controller/networknodeoverlay_vxlanmesh.go:64-123 | The inner loop produces the tunnels from one node to all others, each once, exactly if there are enough addresses |
| `Mesh.MeshOrderDoesNotMatter` | plugins/controller/networknodeoverlay_vxlanmesh.go:62-131 | For a fixed VNI and addresses, any two iteration orders of the node set give the same entry map |
| `Mesh.MeshBridgeHas` | plugins/controller/networknodeoverlay_vxlanmesh.go:105-110 | The members of a node's bridge are, if and only if, its pod interfaces in split-horizon group 0 and its tunnels to the other nodes in group 1 |
| `Mesh.MeshLayoutIsValid` | plugins/controller/networknodeoverlay_vxlanmesh.go:70-71 | Generated tunnel names of a node differ from each other and from its loopback, so the mesh is well formed |
| `Overlay.MeshNameExample` | plugins/controller/networknodeoverlay_vxlanmesh.go:70-71 | The generated names of a mesh tunnel, a bridge and a loopback, spelled out on an input |
| `Services.FirstConnectionExample` | plugins/controller/networkservice.go:352-358 | Connections are counted from 1 in generated names, spelled out on an input |
| `Services.RenderServices` | plugins/controller/networkservice.go:320-324 | Renders all services: each in full or with a message. All are rendered if and only if all their connections can be and there are a free VNI for each and an address for every node; where there are enough, each is rendered exactly if its own connections can be. VNIs differ between all connections of a mesh and are the one of a hub and spoke; addresses drawn later leave earlier connections as they were; for any VNI range |
| `Services.RenderService` | plugins/controller/networkservice.go:352-358 | The loop over the connections renders each of them with its pod interfaces, in order, or stops with a message; it succeeds if and only if every connection can be rendered and there are enough VNIs and addresses, and takes exactly as many |
| `Services.RenderConnection` | plugins/controller/networkservice_l2mp.go:270-318 | A connection: first the entries of its pod interfaces, then its overlay; the steps are exactly those blocks; it succeeds if and only if its interfaces can be rendered, its overlay can take it, a VNI is left and there are enough addresses |
| `Services.RenderOverlay` | plugins/controller/networkservice_l2mp.go:286-316 | The overlay by its kind; an L2PP connection over a hub and spoke fails, and so does one without its hub or with the hub among its nodes; otherwise it fails exactly if no VNI is left for a mesh, or an endpoint can get no address |
| `Services.RenderMeshOverlay` | plugins/controller/networknodeoverlay_vxlanmesh.go:26-134 | An L2MP connection over a mesh under a VNI that was not taken before, and is now; it succeeds if and only if a VNI is left and there are enough addresses |
| `Services.RenderWireOverlay` | plugins/controller/networkservice_l2pp.go:296-304 | An L2PP connection over a mesh, likewise |
| `Services.RenderHubOverlay` | plugins/controller/networkservice_l2mp.go:299-308 | An L2MP connection over a hub and spoke under its one VNI; it succeeds if and only if the hub is there and is none of the nodes, and there are enough addresses |
| `Layouts.PlainIsBeside` | plugins/controller/networkservice_if.go:83-125 | Entries without tunnels, cross-connects, generated names and bridge members leave every bridged connection alone |
| `Services.EveryMeshFloodsOnce` | plugins/controller/networkservice.go:352-358 | With any number of services, each with any number of mesh and L2PP connections and the entries of their pod interfaces among them: each mesh connection floods exactly once among its own pod interfaces and leaks to no other |
| `Services.EveryWireMatches` | plugins/controller/networknodeoverlay_vxlanmesh.go:169-240 | In the same setting: a frame from an end of an L2PP connection arrives at the partner and nowhere else, by one way only (if and only if) |
| `Services.PortsAttached` | plugins/controller/networkservice_if.go:105-125 | With any number of services rendered together, every pod interface of every connection is there and is no tunnel |
| `Services.RenderPods` | plugins/controller/networkservice_l2mp.go:272-284 | The loop over the pod interfaces succeeds exactly if each can be rendered, and adds exactly their entries in order |
| `Services.PartKeeps` | plugins/controller/networknodeoverlay.go:125-137 | Addresses that other nodes get later do not change what a connection renders |
| `Services.ServiceIsTyped` | plugins/controller/networkservice.go:334-384 | The steps of a service that was rendered are well typed, as a transaction needs them |
| `Services.RunsTogether` | plugins/controller/networkservice.go:352-358 | No connection of any service overwrites what another one renders, and pod interfaces overwrite neither |
| `PodInterfaces.RenderConnInterfacePair` | plugins/controller/networkservice_if.go:25-57 | An interface pair is rendered exactly if it is Ethernet or its status could be initialised. What is added is then, if and only if: the side at the vswitch, without address, in the connection's VRF, under the name that joins the overlay; the side in the pod's VPP with MAC and addresses, if the pod has one; the two ends of a veth pair, each the other's peer; and one entry for each route and ARP instruction |
| `PodInterfaces.RenderPair` | plugins/controller/networkservice_if.go:83-127 | The steps add the entries of a memif or a veth pair, of which `PairIs` states every field |
| `PodInterfaces.RenderInterfaceForwarding` | plugins/controller/networkservice_if.go:399-438 | The loops over routes and ARP entries add one entry for each, in order, under the pod |
| `PodInterfaces.PodEntriesAre` | plugins/controller/networkservice_if.go:83-127 | An entry is a pod interface's if and only if it is one of those, field by field; an Ethernet interface has none |
| `PodInterfaces.PodEntriesArePlain` | plugins/controller/networkservice_if.go:83-125 | A pod interface's entries interfere with no overlay if and only if the pod's own interface does not bear the name of a generated tunnel |
| `PodInterfaces.SwitchNameIsNoTunnelName` | plugins/controller/networkservice_if.go:105-105 | Names at the vswitch are never names of generated tunnels |
| `Coexisting.CoexistingRealize` | plugins/controller/networkservice.go:352-358 | The entries of any number of connections and pod interfaces build the fabric of each bridged connection that is apart from the others |
| `Coexisting.CoexistingMatch` | plugins/controller/networkservice.go:352-358 | Likewise for the matching of the ends of each L2PP connection that is apart from the others |
| `Coexisting.DistinctPartsApart` | plugins/controller/networknodeoverlay_vxlanmesh.go:70-71 | Connections of any two kinds with different VNIs, places in their services and interfaces neither overwrite each other nor mirror each other's tunnels |
| `Coexisting.ConnectionOrderDoesNotMatter` | plugins/controller/networkservice.go:352-358 | In whatever order the connections of an overlay are rendered, the entries are the same |
| `Coexisting.BlocksKeep` | plugins/controller/networknodeoverlay.go:125-137 | Addresses that other nodes get later do not change the blocks of a bridged connection |
| `Coexisting.MixedExactlyIf` | plugins/controller/vppagent/vpp_agent.go:323-349 | Frames pass from a tunnel of one connection into a tunnel of another exactly if both have the same VNI and join the same nodes |
| `Layouts.RenderingRealizes` | plugins/controller/networknodeoverlay_vxlanmesh.go:94-131 | The rendered entries, among any others that leave the overlay alone and over any unrelated ones, build the intended fabric: bridges with exactly the pod interfaces and tunnels, and mirrored tunnels only |
| `Layouts.RenderingIsCanonical` | plugins/controller/networknodeoverlay_vxlanmesh.go:62-131 | All orders of an overlay's entries give the same map |
| `Layouts.LinkedExactly` | plugins/controller/vppagent/vpp_agent.go:329-342 | A tunnel, which is up, hands its frames to the tunnel of the opposite link and to no other |
| `Layouts.SourceIsLocal` | plugins/controller/networknode.go:608-618 | With loopbacks, the source of every tunnel is the address of a loopback of its own node, which is switched on and has no other address |
| `Layouts.DestinationIsRouted` | plugins/controller/networknode.go:622-646 | With routes, the destination of every tunnel has a route by way of every labelled interface of the other node, out of a labelled interface of the tunnel's own node |
| `Layouts.TunnelRendered` | plugins/controller/vppagent/vpp_agent.go:323-349 | The interface of every tunnel stands, switched on, with the source and destination of its link and the VNI of the connection; every field is stated |
| `Layouts.BridgeRendered` | plugins/controller/networkservice.go:690-735 | The bridge of every node stands with the connection's parameters and exactly the sorted members |
| `Layouts.BlocksAgree` | plugins/controller/networknode.go:606-646 | Keys that several tunnels of an overlay share (loopbacks, routes) carry equal values |
| `Layouts.BridgeMembers` | plugins/controller/networkservice_l2mp.go:272-284 | A bridge's sorted member list has every pod interface and tunnel of its node once, under different names |
| `Layers.OrderDoesNotMatter` | plugins/controller/rendertxn.go:192-208 | Blocks of entries that agree on common keys give the same map in every order and with repetitions |
| `Layers.ExecAllLays` | plugins/controller/rendertxn.go:192-212 | Adding entries directly or through a temporary record lays them over the level in order |
| `Collecting.RenderBridges` | plugins/controller/networkservice.go:690-735 | One private bridge for each node, with its collected members sorted, in any order of the nodes |
| `Collecting.CollectPods` | plugins/controller/networkservice_l2mp.go:272-284 | The loop over the pod interfaces files each under its node, in order, in split-horizon group 0 |
| `Collecting.RenderTunnel` | plugins/controller/networknodeoverlay_vxlanmesh.go:70-122 | One tunnel: addresses of both ends, tunnel entry, loopback and routes, and the bridge member; it fails exactly if an end has no address and the pool has none left for it |
| `Collecting.CollectedIsRendering` | plugins/controller/networknodeoverlay_vxlanmesh.go:61-131 | Once every tunnel is collected and every bridge made, the steps are exactly the overlay's rendering |
| `Flooding.MeshFloodsOnce` | plugins/controller/networknodeoverlay_vxlanmesh.go:105-110 | The split-horizon full mesh of section 4.4 of RFC 4762: tunnels in one group never forward to each other, so every pod interface hears one copy and no copy crosses more than two bridges |
| `Flooding.MeshPaths` | plugins/controller/networknodeoverlay_vxlanmesh.go:105-110 | Every path of a frame from a pod interface of a mesh has at most two hops, and the second ends at a pod interface |
| `Flooding.HubAndSpokeFloodsOnce` | plugins/controller/networknodeoverlay_vxlanhubandspoke.go:117-123 | In the tree through the hub every pod interface on every spoke hears one copy and no copy crosses more than three bridges |
| `Flooding.HubPaths` | plugins/controller/networknodeoverlay_vxlanhubandspoke.go:117-123 | Every path goes at most up to the hub and down to one other spoke |
| `Hubs.RenderHubService` | plugins/controller/networkservice.go:352-358 | Any number of hub-and-spoke connections of a service, with their pod interfaces, rendered in a row are such a set of connections; it succeeds if and only if each can be rendered and there are enough addresses |
| `Hubs.HubServiceIsDone` | plugins/controller/networkservice.go:320-324 | So are the connections of any number of services over one hub and spoke, if their generated names tell them apart |
| `Hubs.HostNamesTell` | plugins/controller/networknodeoverlay_vxlanhubandspoke.go:75-82 | Generated names of services with different names differ at every node, where spokes have no underscore in their names |
| `Hubs.NamesCollide` | plugins/controller/networknodeoverlay_vxlanhubandspoke.go:75-82 | Otherwise they need not: two services of different names whose tunnels at the hub have one name |
| `Hubs.IsolatedExactlyIf` | plugins/controller/networknodeoverlay_vxlanhubandspoke.go:54-54 | All connections of a hub-and-spoke overlay share its one VNI: a connection keeps its frames to itself if and only if with every other connection it has no spoke in common, or both have just one and the same spoke |
| `HubLeak.SharedSpokesAreReached` | plugins/controller/networknodeoverlay_vxlanhubandspoke.go:54-54 | An input on which isolation fails: two connections of a service with the same two spokes, rendered without an error, and a path by which a frame of the first reaches a pod of the second |
| `HubAndSpoke.RenderConnL2MPVxlanHubAndSpoke` | plugins/controller/networknodeoverlay_vxlanhubandspoke.go:26-151 | Succeeds if and only if the hub is known and none of the spokes and there are enough addresses, and else leaves a message; its steps are a rendering of the tree, for whatever order of spokes |
| `HubAndSpoke.RenderHub` | plugins/controller/networknodeoverlay_vxlanhubandspoke.go:57-148 | With the hub known, the loops render both tunnels of every spoke and all bridges, exactly if the hub is no spoke and there are enough addresses |
| `HubAndSpoke.RenderSpokes` | plugins/controller/networknodeoverlay_vxlanhubandspoke.go:57-137 | The loop over the spokes produces both tunnels of every spoke, each once, unless a spoke is the hub |
| `HubAndSpoke.RenderSpoke` | plugins/controller/networknodeoverlay_vxlanhubandspoke.go:69-136 | The two ends of a spoke: hub to spoke and spoke to hub, in group 0, exactly if both can have an address |
| `Overlay.HubNameExample` | plugins/controller/networknodeoverlay_vxlanhubandspoke.go:75-79 | The generated name of a tunnel from the hub, spelled out on an input |
| `Overlay.SpokeNameExample` | plugins/controller/networknodeoverlay_vxlanhubandspoke.go:79-82 | The generated name of a tunnel to the hub, spelled out on an input |
| `HubAndSpoke.RenderHubBridges` | plugins/controller/networknodeoverlay_vxlanhubandspoke.go:139-148 | A bridge for every spoke and then the hub's |
| `HubAndSpoke.RenderedHubFloodsOnce` | plugins/controller/networknodeoverlay_vxlanhubandspoke.go:57-148 | For every spoke set without the hub: a frame from a pod interface reaches every other pod interface on every spoke exactly once and nothing else |
| `HubAndSpoke.HubOrderDoesNotMatter` | plugins/controller/networknodeoverlay_vxlanhubandspoke.go:57-148 | Any two iteration orders of the spokes give the same entry map |
| `HubAndSpoke.HubBridgeHas` | plugins/controller/networknodeoverlay_vxlanhubandspoke.go:117-123 | The members of a bridge are, if and only if, the node's pod interfaces and its tunnels, from the hub to every spoke or from a spoke to the hub, all in split-horizon group 0 |
| `Hubs.OneSpokeIsIsolated` | plugins/controller/networknodeoverlay_vxlanhubandspoke.go:54-148 | With one and the same spoke only, frames do not get past the hub |
| `Hubs.SharedSpokeLeaksOut` | plugins/controller/networknodeoverlay_vxlanhubandspoke.go:54-54 | A path by which frames from a common spoke reach another connection's other spokes |
| `Hubs.SeparateHubFloodsOnce` | plugins/controller/networknodeoverlay_vxlanhubandspoke.go:54-148 | A connection whose spokes belong to no other connection floods exactly once |
| `Hubs.SharedSpokeLeaks` | plugins/controller/networknodeoverlay_vxlanhubandspoke.go:54-54 | A path by which frames reach another connection's pod interfaces on a common spoke |
| `Hubs.ApartExactlyIf` | plugins/controller/networknodeoverlay_vxlanhubandspoke.go:54-57 | Connections of one overlay are apart exactly if they have no spoke in common |
| `Hubs.HubsAlongside` | plugins/controller/networknodeoverlay_vxlanhubandspoke.go:75-82 | Connections of one service have different generated names |
| `PointToPoint.WireMatchesEnds` | plugins/controller/networknodeoverlay_vxlanmesh.go:169-240 | The cross-connects and VNI-matched mirrored tunnels of an L2PP connection match its two ends, among whatever leaves it alone: the other end is reached, by one way, and nothing else |
| `PointToPoint.WireIsInvolutive` | plugins/controller/networknodeoverlay_vxlanmesh.go:169-240 | Following a connection back from where it arrives is the inverse |
| `PointToPoint.EndsAgree` | plugins/controller/networknodeoverlay_vxlanmesh.go:174-178 | The two ends of a connection do not write different values under one key |
| `Wires.RenderConnL2PPVxlanMesh` | plugins/controller/networknodeoverlay_vxlanmesh.go:137-243 | Draws a VNI and renders tunnels both ways and both cross-connects; succeeds exactly if a VNI is left and both nodes can have an address; a failure leaves a message |
| `Wires.RenderWireTunnels` | plugins/controller/networknodeoverlay_vxlanmesh.go:169-230 | The loop over both ends gives the mirrored tunnels, loopbacks and routes of the two ends |
| `Wires.RenderCrossConnects` | plugins/controller/networknodeoverlay_vxlanmesh.go:233-240 | The loop over both ends gives the cross-connects of both ends with their tunnels, both ways |
| `PointToPoint.WireNameExample` | plugins/controller/networknodeoverlay_vxlanmesh.go:174-178 | The generated name of the tunnel of an end, spelled out on an input |
| `PointToPoint.LinkedToOther` | plugins/controller/vppagent/vpp_agent.go:323-349 | A connection's tunnel, which is up, is linked to its own counterpart and to no other tunnel |
| `PointToPoint.EndSettled` | plugins/controller/vppagent/vpp_agent.go:361-388 | Whatever else is rendered, an end and its tunnel, which is switched on, are cross-connected with each other in both directions |
| `Overlay.RenderLoopbackAndRoutes` | plugins/controller/networknode.go:581-649 | An entry is added if and only if it is the loopback with the node's address and no other, where loopbacks are asked for, or a route from some labelled Ethernet interface of the source node to some labelled one of the other, where routes are; every field is stated |
| `Overlay.RenderRoutes` | plugins/controller/networknode.go:621-646 | An entry is added if and only if it is the route from some labelled Ethernet interface of the source node, by which it leaves, to the first address of some labelled one of the other |
| `Overlay.RenderRoutesOut` | plugins/controller/networknode.go:627-645 | An entry is added if and only if it is the route out of the given interface to some labelled Ethernet interface of the other node |
| `Tunnels.AddressBook.AllocateVxlanAddress` | plugins/controller/networknodeoverlay.go:105-140 | A node keeps the address it has; a new one comes from the pool, exactly if one is left, and costs one; nothing else changes |
| `Tunnels.AddressBook.Draw` | plugins/controller/networknodeoverlay.go:128-139 | A drawn address is made from an id that no other node's address was made from; drawing fails exactly if the pool has no id to give |
| `Tunnels.EnoughStays` | plugins/controller/networknodeoverlay.go:125-139 | Whether there are addresses for a set of nodes does not depend on how many of them have got theirs already |
| `Ipam.SpareIsFree` | plugins/controller/idapi/ipam/ipam.go:80-109 | Where ids were only marked in range, as many allocations in a row succeed as there are free ids |
| `Tunnels.AddressBook.PoolAddressesDistinct` | plugins/controller/networknodeoverlay.go:125-139 | Addresses drawn from a pool differ, also without their prefix lengths |
| `SortedMembers.Search` | plugins/controller/vppagent/vpp_agent.go:128-128 | Binary search finds the first position whose name is greater than the new one's |
| `SortedMembers.InsertSorted` | plugins/controller/vppagent/vpp_agent.go:125-133 | Insertion at that position is insertion into the sorted list |
| `SortedMembers.SortMembers` | plugins/controller/vppagent/vpp_agent.go:70-73 | The loop of insertions sorts |
| `SortedMembers.SortAllSorts` | plugins/controller/vppagent/vpp_agent.go:70-73 | The result is sorted and a permutation of the input |
| `SortedMembers.SortAllIsCanonical` | plugins/controller/vppagent/vpp_agent.go:66-73 | Permutations of a member list, in which names identify members, sort to the same list |
| `SortedMembers.SortedIsUnique` | plugins/controller/vppagent/vpp_agent.go:66-73 | There is one sorted list of a given bag of members |
| `Entries.EqualIsSameMeaning` | plugins/controller/vppagent/database.go:91-134 | On entries of known type `Equal` is the equivalence of having one key and one meaning, where the description of a route means nothing |
| `Entries.EqualReflexiveIfKnown` | plugins/controller/vppagent/database.go:128-131 | An entry equals itself exactly if its type is known |
| `Entries.EqualTransitive` | plugins/controller/vppagent/database.go:91-134 | `Equal` is transitive on all entries, of known type or not |
| `Entries.EqualSymmetric` | plugins/controller/vppagent/database.go:91-134 | `Equal` is symmetric on all entries |
| `Commit.RunKeepsAgreement` | plugins/controller/rendertxn.go:116-177 | Over every run of successful commits and entity deletions cache and etcd agree at every boundary, and after a commit the cache has exactly the rendered keys with equal values |
| `Commit.RunDiffersExactlyAt` | plugins/controller/rendertxn.go:116-177 | Over every run of commits, commits that stop at a failed put, and deletions: cache and etcd differ exactly at the keys whose put landed in a commit that stopped and that nothing has touched since |
| `Commit.CommitMatchesRendering` | plugins/controller/rendertxn.go:142-171 | After a commit the cache's domain is the rendering's and every value is `Equal` to the rendered one |
| `Commit.RetryRepairs` | plugins/controller/rendertxn.go:142-171 | A commit that stops at a failed put, then a successful commit of an equal rendering: cache and etcd agree on exactly the rendered keys, whichever puts had landed |
| `Commit.AgreesExactlyIfTouched` | plugins/controller/rendertxn.go:142-171 | From any state, a successful commit makes cache and etcd agree if and only if it touches every key on which they differ |
| `Commit.ChangedRetryNeedNotRepair` | plugins/controller/rendertxn.go:161-171 | A failed commit followed by a successful commit of the former configuration leaves etcd apart from the cache: the put that had landed stays |
| `Commit.RecommitIssuesNothing` | plugins/controller/rendertxn.go:142-167 | Committing an equal rendering again issues no operation and changes nothing |
| `Commit.StoppedDiffersOnlyWhereLanded` | plugins/controller/rendertxn.go:161-167 | After a stopped commit cache and etcd differ only at keys whose put landed |
| `Commit.RemoveKeepsAgreement` | plugins/controller/rendertxn.go:215-225 | Deleting an entity's recorded keys keeps cache and etcd in agreement |
| `RenderTxn.Transactor.ConfigStart` | plugins/controller/rendertxn.go:46-67 | The before map is the cache, and level 0 is empty |
| `RenderTxn.Transactor.EntityStart` | plugins/controller/rendertxn.go:70-75 | A new empty level on top of the others |
| `RenderTxn.Transactor.EntityEnd` | plugins/controller/rendertxn.go:78-90 | The top level overrides the one below and is gone; the level counter is back |
| `RenderTxn.Transactor.EntityRemoveEntries` | plugins/controller/rendertxn.go:106-113 | The top level is empty again, the others are kept |
| `RenderTxn.Transactor.AddVppEntry` | plugins/controller/rendertxn.go:192-212 | The entry is on the top level, and its key is recorded the first time only |
| `RenderTxn.Transactor.WriteToEtcd` | plugins/controller/vppagent/database.go:137-159 | A put that fails may have reached etcd or not, and is counted as failed |
| `RenderTxn.Transactor.Reconcile` | plugins/controller/rendertxn.go:142-159 | For any order of keys: exactly the keys no longer rendered are deleted, each once, and exactly the new or different ones remain to be written |
| `RenderTxn.Transactor.WriteRemaining` | plugins/controller/rendertxn.go:161-167 | Puts go out once per remaining key until one fails, and it fails exactly if one does; etcd has exactly those that landed |
| `RenderTxn.Transactor.UpdateCache` | plugins/controller/rendertxn.go:169-171 | The written entries enter the cache |
| `RenderTxn.Transactor.ConfigEnd` | plugins/controller/rendertxn.go:116-177 | It succeeds exactly if no put fails. A successful commit is the specified one and issues exactly a delete per key no longer rendered and a put per new or different key; a failed one is the specified stop |
| `RenderTxn.Transactor.DeleteRendered` | plugins/controller/rendertxn.go:215-225 | Exactly the recorded keys leave the cache and etcd, with one delete each |
| `Entities.ReloadRebuildsCache` | plugins/controller/plugin_impl_controller.go:383-405 | Restart round trip: after a successful commit, reading the recorded keys back gives exactly the cache's keys and values; and the statuses say which entities were rendered |
| `Entities.StatusesAreSeparate` | plugins/controller/networkservice.go:345-350 | Each entity's status depends on its own rendering only; a configuration that is not valid keeps its status or the lack of one |
| `Entities.StatusTells` | plugins/controller/networkservice.go:365-376 | A status is up if and only if no step of the entity failed; it has the message of the failure, and then no recorded keys |
| `Entities.ContributionIsRecorded` | plugins/controller/rendertxn.go:197-208 | A successful entity has recorded exactly the keys that it adds, with the types of those keys |
| `Entities.EntityManager.RenderSteps` | plugins/controller/rendertxn.go:180-212 | The entity's level and record are those of its steps up to the first failure |
| `Entities.EntityManager.AddThroughRecord` | plugins/controller/networknodeoverlay_vxlanmesh.go:112-122 | Keys recorded through a temporary map are those that the level did not have |
| `Entities.EntityManager.RenderConfig` | plugins/controller/networkservice.go:334-384 | All or nothing: an entity adds everything that it rendered to the level below, or nothing, and its status says which |
| `Entities.EntityManager.RenderAll` | plugins/controller/plugin_impl_controller.go:220-225 | Level 0 ends as the left-to-right override of the entities' contributions, and is the only level left |
| `Entities.EntityManager.RenderTransaction` | plugins/controller/model_mgrs.go:158-163 | A whole transaction commits the rendering of the job, or stops, exactly if a put fails, as specified, and leaves the statuses of the job |
| `Entities.RenderingHasSuccessfulKeys` | plugins/controller/networkservice.go:365-376 | A key is rendered if and only if an entity that rendered without error has it |
| `Entities.LastEntityWins` | plugins/controller/rendertxn.go:83-85 | Under a key stands the entry of the last entity that has it |
| `Entities.EntityManager.LoadRecorded` | plugins/controller/plugin_impl_controller.go:384-405 | Reading the recorded keys adds exactly those that etcd has, and fails exactly if a recorded type is not known or not that of the value |
| `Entities.EntityManager.Reload` | plugins/controller/plugin_impl_controller.go:309-378 | The reload rebuilds what etcd has under any entity's recorded keys, and fails exactly if some entry cannot be read |
| `MessageLoop.Loop.Handle` | plugins/controller/model_mgrs.go:106-132 | Each message, of any of the six models, changes the configuration, the placements, the switch, the pending flag and the statuses as specified, and the cache and etcd only for a deletion; it ends the process, with nothing changed, exactly if it is fatal. What the specification leads to is stated by the laws over sequences below |
| `MessageLoop.SurvivesExactlyIf` | plugins/controller/networkservice.go:326-332 | For every sequence, every renderer and every start: the process survives if and only if no message updates an invalid service, and none deletes an entity that no rendering has found valid since its last update, or since the start if it had no status then |
| `MessageLoop.BareExactlyIf` | plugins/controller/networkservice.go:334-346 | After every sequence an entity has no status if and only if its last message was a valid update, or it had none at the start, and no rendering has found it valid since |
| `MessageLoop.SurvivesIfRendered` | plugins/controller/networkservice.go:326-346 | Where every rendering finds the entities without a status valid, the messages alone decide: a sequence is survived if and only if it has no update of an invalid service and no deletion of an entity whose last update came while rendering was disabled, with rendering disabled ever since |
| `MessageLoop.DeletedBeforeRendering` | plugins/controller/networknode.go:388-394 | An input that is not survived: an update and a deletion of one entity before rendering is enabled |
| `MessageLoop.DeletedWhenNotValid` | plugins/controller/networkservice.go:341-343 | Another one, with rendering enabled in between: the rendering finds the updated service not valid, because what it refers to was changed, and leaves it without a status |
| `MessageLoop.NotTold` | plugins/controller/networkservice.go:341-343 | None of the messages of that input is fatal as far as the messages alone tell, so the premise of `SurvivesIfRendered` is needed |
| `MessageLoop.Loop.HandleUpdate` | plugins/controller/networkservice.go:101-128 | An update drops the entity's status, or tells that a node is not valid; an invalid service, which has no status for the message, ends the process |
| `MessageLoop.Loop.HandleRemove` | plugins/controller/networkservice.go:137-157 | A deletion takes the recorded keys out of cache and etcd; an entity without a status ends the process, one that is not there changes nothing |
| `MessageLoop.Loop.RenderAndCommit` | plugins/controller/model_mgrs.go:159-161 | A transaction of the current configuration: committed, or stopped at a failed put; one that was written puts etcd in sync with a rendering of the configuration, records included |
| `MessageLoop.Loop.Turn` | plugins/controller/model_mgrs.go:106-163 | One turn: the message and, if rendering is enabled and pending, a transaction; what was in sync stays so unless a rendering is asked for |
| `MessageLoop.Loop.ProcessOperationalMessages` | plugins/controller/model_mgrs.go:96-167 | For every message sequence and whatever puts fail: the process ends early exactly if the sequence is not survived; configuration, statuses, cache and etcd are those of the history of the messages; cache and etcd differ exactly at keys whose put landed in a stopped commit and was not touched since; at the loop head nothing is pending while rendering is enabled; and after a render request, if no put failed, whenever nothing is pending, etcd, cache and records are those of a rendering of the current configuration |
| `MessageLoop.PlacementIsDecided` | plugins/controller/networkpodnodemap.go:88-122 | After every sequence a pod is where the last message that decides it puts it: where a placement says, where a resync discovered it, or else where the last message before that resync configured it; taking a pod out of the configuration alone changes nothing |
| `MessageLoop.ConfiguredIs` | plugins/controller/networkpodnodemap.go:88-122 | After every sequence the configured placement of a pod is that of the last message that configures it |
| `MessageLoop.EffectiveIs` | plugins/controller/networkpodnodemap.go:331-352 | A resync puts the discovered placement of a pod into effect, or the configured one where nothing was discovered |
| `MessageLoop.ConfigIs` | plugins/controller/model_mgrs.go:106-132 | After every sequence the configuration is the one that the last message with one carries |
| `MessageLoop.NamesAre` | plugins/controller/networkservice.go:101-157 | After every sequence an entity is there if and only if the last message about it was an update |
| `MessageLoop.SwitchIsLast` | plugins/controller/model_mgrs.go:112-118 | Rendering is enabled as the last message for the switch says |
| `MessageLoop.PendingExactlyIf` | plugins/controller/model_mgrs.go:106-163 | After every sequence a rendering is pending if and only if one was asked for, and rendering has been disabled ever since; a resync asks for one exactly if it moved a pod |
| `MessageLoop.StatusIs` | plugins/controller/networkservice.go:334-384 | After every sequence an entity that no message was about since the last rendering that found it valid has the status of that rendering |
| `MessageLoop.NotValidIsToldOf` | plugins/controller/networknode.go:180-183 | A node that was last updated with a configuration that is not valid has a status that says so, until a rendering finds it valid |
| `MessageLoop.DeletesWhatItAdded` | plugins/controller/rendertxn.go:215-225 | The deletion of an entity takes exactly the keys out of the cache and etcd that the entity added in the last rendering that found it valid |
| `MessageLoop.DifferWhereStale` | plugins/controller/rendertxn.go:116-177 | Whatever messages come and whatever puts fail, cache and etcd differ exactly at the keys whose put landed in a commit that stopped and that nothing has touched since |
| `MessageLoop.AgreesIfWritten` | plugins/controller/rendertxn.go:116-177 | If no put failed, cache and etcd agree after every sequence |
| `PodMap.PlacementManager.Sync` | plugins/controller/networkpodnodemap.go:331-377 | The map in effect is the discovered one laid over the configured one, and rendering is required if and only if that is not the old map |
| `PodMap.PlacementManager.CopyInto` | plugins/controller/networkpodnodemap.go:339-352 | Copying one map over another in any order is the override |
| `PodMap.PlacementManager.SomeDiffers` | plugins/controller/networkpodnodemap.go:359-365 | The loop finds a placement that is missing or different exactly if there is one |
| `PodMap.DiffersExactlyIf` | plugins/controller/networkpodnodemap.go:355-366 | Equal sizes and one-way inclusion decide equality |
| `Bitmaps.Bitmap.constructor` | plugins/controller/idapi/bitmap/bitmap.go:126-133 | A new bitmap is the empty set |
| `Bitmaps.Bitmap.IsSet` | plugins/controller/idapi/bitmap/bitmap.go:30-36 | Membership in the set of set bits, false outside 1..numBits |
| `Bitmaps.Bitmap.Set` | plugins/controller/idapi/bitmap/bitmap.go:38-46 | Adds exactly one bit, or reports one out of range and changes nothing |
| `Bitmaps.Bitmap.Clear` | plugins/controller/idapi/bitmap/bitmap.go:48-54 | Removes exactly one bit, if it is in range |
| `Bitmaps.Bitmap.FindFirstClear` | plugins/controller/idapi/bitmap/bitmap.go:57-74 | The least clear bit, and 0 exactly when all are set, also where the candidate wraps to 0 |
| `Bitmaps.Bitmap.String` | plugins/controller/idapi/bitmap/bitmap.go:76-123 | The printed list reads back to ascending, disjoint, maximal runs that cover exactly the set bits |
| `Bitmaps.Bitmap.RunList` | plugins/controller/idapi/bitmap/bitmap.go:89-120 | The loop prints the runs of the set bits |
| `Words64.SetBit` | plugins/controller/idapi/bitmap/bitmap.go:44-44 | Or with the shifted mask sets one bit of a word and keeps the others |
| `Words64.ClearBit` | plugins/controller/idapi/bitmap/bitmap.go:53-53 | And-not with the shifted mask clears one bit of a word and keeps the others |
| `Words64.IsBitSet` | plugins/controller/idapi/bitmap/bitmap.go:35-35 | The shifted mask tests one bit of a word |
| `Runs.ReadRunsText` | plugins/controller/idapi/bitmap/bitmap.go:89-121 | Every run list reads back from its text |
| `Runs.AllRunsCover` | plugins/controller/idapi/bitmap/bitmap.go:94-120 | The runs of a set are ascending, disjoint and maximal, and cover exactly the set |
| `Vnis.AllocatesIfFree` | plugins/controller/idapi/vxlan.go:51-60 | An allocation succeeds if and only if a number of the range is left, and leaves one less |
| `Vnis.RunAllocatesFresh` | plugins/controller/idapi/vxlan.go:51-60 | Over every run, for any range, each allocated number was not taken before the run |
| `Vnis.RunAllocatesDistinct` | plugins/controller/idapi/vxlan.go:51-60 | No run hands out one number twice, whatever the range is |
| `Vnis.InRangeExactlyIf` | plugins/controller/networknodeoverlay.go:389-392 | Every allocation of every run is in range if and only if the range is not reversed or has size 0 |
| `Vnis.VniAllocator.constructor` | plugins/controller/idapi/vxlan.go:63-77 | A new allocator has taken nothing; the count wraps as uint32 does |
| `Vnis.VniAllocator.SetVni` | plugins/controller/idapi/vxlan.go:38-48 | Takes exactly the given number if it is in range |
| `Vnis.MarksItsNumber` | plugins/controller/idapi/vxlan.go:38-48 | A number can be taken if and only if it lies in the range and the count of the range did not wrap to 0; exactly that number is taken |
| `Vnis.VniAllocator.AllocateVni` | plugins/controller/idapi/vxlan.go:51-60 | Takes the least free number of the range, or reports that none is left |
| `Vnis.FirstIsStart` | plugins/controller/idapi/vxlan.go:51-60 | A new allocator gives the first number of its range first |
| `Vnis.RunExhaustsExactlyWhenFull` | plugins/controller/idapi/vxlan.go:52-55 | An allocation fails if and only if as many numbers are taken as the range has |
| `Vnis.ReversedRangeLeaves` | plugins/controller/networknodeoverlay.go:389-392 | A reversed range, which validation only reports, hands out a number above its end |
| `Ipam.AllocationIsLeastFree` | plugins/controller/idapi/ipam/ipam.go:80-109 | After every run of calls that marks no id outside the range, allocation returns the least free id and fails exactly when there is none; the loops end and the internal error is never reached |
| `Ipam.InRangeExactlyIf` | plugins/controller/idapi/ipam/ipam.go:128-141 | Over every run a pool keeps to its range if and only if no address with an id outside it was marked |
| `Ipam.FailsFalselyExactlyIf` | plugins/controller/idapi/ipam/ipam.go:82-84 | On every reachable pool: allocation fails although an id is free if and only if the count is that of a full range and an address with an id outside the range was marked |
| `Ipam.FailsFalselyAt200` | plugins/controller/idapi/ipam/ipam.go:131-140 | An input on which it does: in the range 1 to 2 of 10.0.0.0/24, with 10.0.0.200 marked and one id allocated, the next allocation fails while 2 is free |
| `Ipam.OutsiderCounts` | plugins/controller/idapi/ipam/ipam.go:82-84 | A full range with an id marked outside it is not reported as full by the count; the scan then finds nothing |
| `Ipam.DrawIsFresh` | plugins/controller/idapi/ipam/ipam.go:80-109 | Whatever addresses were marked, an allocation gives an id of the range that was free, or changes nothing |
| `Ipam.PoolAllocator.Reset` | plugins/controller/idapi/ipam/ipam.go:144-194 | The pool is as new |
| `Ipam.PoolAllocator.constructor` | plugins/controller/idapi/ipam/ipam.go:144-194 | The range with its defaults, in uint32 arithmetic |
| `Ipam.PoolAllocator.SetAddress` | plugins/controller/idapi/ipam/ipam.go:68-77 | Marks exactly the given id if it is in range, and gives its address with the network's prefix length |
| `Ipam.MarksInRange` | plugins/controller/idapi/ipam/ipam.go:68-77 | Marking takes the id if and only if it is in the range, and no other |
| `Ipam.FormattedReadsBack` | plugins/controller/idapi/ipam/ipam.go:112-126 | A formatted address reads back whole: the address of the id and the length of the network's prefix |
| `Ipam.InsideExactlyIf` | plugins/controller/idapi/ipam/ipam.go:128-141 | A bare address belongs to a pool under an id if and only if it is the network's address plus that id, which fits |
| `Ipam.PoolAllocator.AllocateIPAddress` | plugins/controller/idapi/ipam/ipam.go:80-109 | Takes the next-fit id, or fails, as specified, and gives the id's address with the network's prefix length |
| `Ipam.PoolAllocator.Scan` | plugins/controller/idapi/ipam/ipam.go:86-106 | The scanning loop finds the least free id between its bounds |
| `Ipam.PoolAllocator.Take` | plugins/controller/idapi/ipam/ipam.go:88-93 | Marks an id and moves on to the one after it, back to the start behind the end |
| `Ipam.PoolAllocator.SetIPAddrIfInsidePool` | plugins/controller/idapi/ipam/ipam.go:128-141 | Marks the host id of a bare address inside the network, and nothing otherwise |
| `Ipam.PoolAllocator.GetAllocatedAddressesStatus` | plugins/controller/idapi/ipam/ipam.go:47-51 | Free and allocated ids add up to the size of the range, and free is the number of free ids |
| `Ipam.NextFitIsLeastFree` | plugins/controller/idapi/ipam/ipam.go:85-107 | In a pool whose ids below next are all taken, next-fit finds the least free id |
| `Ipam.PackedStep` | plugins/controller/idapi/ipam/ipam.go:68-109 | Every call keeps all ids below next taken |
| `Ipam.CountTellsFull` | plugins/controller/idapi/ipam/ipam.go:82-84 | The count equals the size of the range if and only if no id is free |
| `Ipam.AddressGivesId` | plugins/controller/idapi/ipam/ipam.go:112-123 | The address lies in the network, and its host bits give the id back, if and only if the id fits the host bits |
| `Ipam.AddressesDistinct` | plugins/controller/idapi/ipam/ipam.go:112-123 | Different fitting ids have different addresses |
| `Ipam.FormattedMarksItsId` | plugins/controller/idapi/ipam/ipam.go:128-141 | Stripped of its prefix length, a formatted address marks exactly the id that it was made from, if and only if that id fits |
| `Ipam.PrefixedMarksNothing` | plugins/controller/idapi/ipam/ipam.go:131-132 | With its prefix length, a formatted address marks nothing |
| `Ipam.DefaultRangeFits` | plugins/controller/idapi/ipam/ipam.go:167-169 | The default range fits the network if and only if the prefix is shorter than 32 bits; for a single host the end wraps to 2^32 - 1 |
| `PoolNumbers.DefaultRangeIs` | plugins/controller/idapi/ipam/ipam.go:160-169 | A pool without a configured range has the ids from 1 up to the last but one of its network |
| `PoolNumbers.FirstDrawExample` | plugins/controller/idapi/ipam/ipam.go:80-126 | The first address of a new pool of 10.5.3.0/24, spelled out |
| `Addresses.ReadDottedText` | plugins/controller/idapi/ipam/ipam.go:115-120 | A dotted address reads back as itself |
| `Addresses.DottedExample` | plugins/controller/idapi/ipam/ipam.go:115-120 | The most significant byte comes first, spelled out on an input |
| `PoolNumbers.PoolManager.MakeAllocators` | plugins/controller/ipampool.go:208-222 | At startup every configured pool has an empty allocator of its own |
| `PoolNumbers.PoolManager.ResetAll` | plugins/controller/ipampool.go:208-222 | After a restart every pool is as new |
| `Interfaces.InterfaceManager.Run` | plugins/controller/interfaces.go:25-157 | Over every sequence of renders, updates, deletions, tunnel draws and restarts, also one that ends early, no two interfaces have the same number of a pool, in memory, in any status or in the datastore; and every step of the run is what its event says |
| `Interfaces.StoredIs` | plugins/controller/networkservice.go:365-384 | Over every run the stored status of an entity is the one that it had when it was last rendered completely; an update or a deletion since has taken it away, and a restart leaves it |
| `Interfaces.RamIs` | plugins/controller/interfaces.go:89-130 | Over every run an interface is in memory as the last event that decides it left it: there with numbers of all its pools, exactly if they had one left, when it was rendered; gone when its entity was deleted; read back at a restart |
| `Interfaces.StatusIs` | plugins/controller/interfaces.go:89-130 | Over every run an interface is in an entity's status exactly if it was last rendered without an error since the entity's rendering began |
| `Interfaces.StatusTables.Delete` | plugins/controller/networkservice.go:137-157 | The entity and its interfaces are gone from memory and the datastore; an entity without a status ends the process, and exactly that |
| `Interfaces.OwnersDoNotShare` | plugins/controller/interfaces.go:56-74 | If every number that an interface has was drawn for it, no two interfaces share one |
| `Interfaces.InterfaceManager.InitInterfaceStatus` | plugins/controller/interfaces.go:25-87 | An interface keeps the numbers that it has and gets one of every pool that it names; new ones belonged to nobody and are the id of no address, static or not, of an interface in memory; its addresses are the static ones and those of its numbers, and all of them are marked in every pool that they lie in, and nothing else; it fails exactly if a pool has no number left for it |
| `Interfaces.UnclaimedIs` | plugins/controller/interfaces.go:76-82 | A number is unclaimed if and only if no interface in memory has an address, static or not, that is the number's own in its pool |
| `Interfaces.InterfaceManager.MarkAddresses` | plugins/controller/interfaces.go:76-82 | The texts are marked, where they lie in a pool's network, in every pool, and nothing else is |
| `Interfaces.InterfaceManager.DrawNumbers` | plugins/controller/interfaces.go:64-74 | Numbers are drawn exactly for the pools that the interface lacks, one each, in use also after an error, and nothing else is done to the pools; it fails exactly if one of them has none left |
| `Interfaces.InterfaceManager.DrawNumber` | plugins/controller/ipampool.go:113-140 | A drawn number has no owner before and is the id of no address of an interface in memory |
| `Interfaces.InterfaceManager.DrawForTunnel` | plugins/controller/networknodeoverlay.go:128-139 | A number drawn for a tunnel address is no number of an interface, nor the id of one of its addresses |
| `Interfaces.InterfaceManager.MarkNumbers` | plugins/controller/interfaces.go:56-63 | Numbers are marked in order up to the first error, and their addresses are listed |
| `Interfaces.InterfaceManager.RenderInterface` | plugins/controller/networkservice_if.go:71-81 | Without an error the interface is in memory and in its entity's status, with the numbers that it had, new ones that nobody claims, and the addresses of all; after an error, which there is exactly if a pool that it names has no number left, it is in neither; other interfaces keep theirs; in the pools, what it takes is accounted for |
| `Interfaces.StatusTables.PersistInterfaceStatus` | plugins/controller/interfaces.go:89-103 | The status is in memory under the interface and under the entity, and nothing else changes |
| `Interfaces.StatusTables.RemoveInterfaceStatus` | plugins/controller/interfaces.go:118-130 | The interface is gone from memory and from the entity, and nothing else |
| `Interfaces.StatusTables.DeleteInterfaceEntries` | plugins/controller/interfaces.go:185-193 | Exactly the entity's interfaces are gone from memory |
| `Interfaces.StatusTables.RenderComplete` | plugins/controller/networkservice.go:365-384 | The entity's interfaces are in the datastore as in its status |
| `Interfaces.StatusTables.Update` | plugins/controller/networkservice.go:101-128 | A new configuration is stored without interfaces |
| `Interfaces.InterfaceManager.RestoreInterface` | plugins/controller/interfaces.go:132-157 | Exactly the numbers and the addresses of a restored interface are marked, if all numbers can be |
| `Interfaces.InterfaceManager.RestoreAll` | plugins/controller/plugin_impl_controller.go:311-378 | After the reload every stored interface is in memory with a stored status, and exactly the stored numbers and addresses are marked, for any order |
| `Interfaces.InterfaceManager.Restart` | plugins/controller/plugin_impl_controller.go:292-381 | A restart at any time keeps every stored number with its interface and loses only what was not stored: exactly the numbers and addresses of the stored interfaces are in use after it |
| `Interfaces.EveryOrderMarksExactlyIf` | plugins/controller/interfaces.go:139-146 | A stored number is sure to be marked at a restart if and only if all numbers of the same interface can be marked |
| `Interfaces.DeletedPoolSharesNumber` | plugins/controller/interfaces.go:142-145 | A number of a pool that is gone keeps another number of the interface unmarked, and the next allocation hands that one out again |
| `Interfaces.LeaksExactlyIf` | plugins/controller/interfaces.go:64-74 | Rendering an interface leaves numbers in use that no interface has if and only if one of the pools that it names has no number left for it and one that is named before that has |
| `Interfaces.LeakExample` | plugins/controller/interfaces.go:64-74 | An input on which it does: the interface names a pool with free numbers and then one that is not there |
| `Interfaces.PrefixedStaticIsDrawn` | plugins/controller/interfaces.go:76-82 | An input on which a static address goes to another interface: written with its prefix length it marks nothing, so its number is the next to be drawn, with the same text |
| `PoolNumbers.PoolManager.SetAddress` | plugins/controller/ipampool.go:143-170 | Marks the number in the named pool and gives its address, or fails for a missing pool or a number out of range and changes nothing |
| `PoolNumbers.PoolManager.AllocateAddress` | plugins/controller/ipampool.go:113-140 | Draws a number that was free in the named pool, exactly if one is left, and gives its address; nothing else changes |
| `PoolNumbers.DrawnIs` | plugins/controller/ipampool.go:113-140 | A number that is drawn was free and in range before, and is in use now, and no other is |
| `PoolNumbers.PoolManager.SetAddressIfInPool` | plugins/controller/ipampool.go:173-193 | Marks the address in the named pool, if it lies in the network of that pool, and changes nothing else |
| `PoolNumbers.PoolManager.SetAddressInPools` | plugins/controller/interfaces.go:78-81 | The loop over the pools marks the address in every one that it belongs to |

## Left out

- HTTP handlers, etcd watchers, YAML reading, logging and mutexes; plugins/k8scrd; generated code.
- Keys of the VPP agents are a datatype: the foreign key builders are taken to be injective, CIDR texts to be
  parsed, and equality of printed payloads to be equality of payloads.
- Payloads are values: connections with `use_node_l2bd`, which append to a bridge object that before and after
  share, are not modelled (plugins/controller/networknode.go:562-568).
- Deletes in etcd succeed; the source ignores their errors (plugins/controller/rendertxn.go:146).
- A failed commit is not tried again by the message loop before the next message; the model keeps that, and what
  is proved after failed puts is `Commit.RunDiffersExactlyAt`, `Commit.RetryRepairs` and
  `Commit.AgreesExactlyIfTouched`.
- The branch of the message loop that delays rendering while messages wait, which an unbuffered channel never
  takes (plugins/controller/model_mgrs.go:141-156).
- A restart between a configuration change and its rendering, or between writing statuses and the commit: recorded
  keys and etcd differ there. The restart of pool numbers, in `Interfaces`, is proved at any time.
- Tap pairs, whose renderer returns an empty name. Of memif and veth interfaces the model takes the resolved addresses,
  and as a text what sets them apart (socket, id, namespace, host name); addresses are given sorted, and the
  description of a forwarding route is shortened.
- Ethernet interfaces of connections are not made by the connection's renderer. That a node has them, whether from its
  own rendering or because they bypass it, is a premise of the end-to-end results (`Services.EthernetIn`).
- IPv6 addresses, and what else the source's address parser takes besides four decimal numbers.
- Of nodes, the entries that come from the configuration; whether a configuration is valid, and the parameters of
  bridges that a template stands for, are given.
- Texts of status messages: a failure is a message, whatever it says.
- Connections inside one node or one pod, and the L3 renderers; validation of configurations.
- A VPP holds one tunnel for a source, a destination and a VNI, and rejects a second one. `Forwarding.Linked` lets a frame
  come out of every tunnel with mirrored endpoints and the same VNI, so what `Hubs` proves of shared spokes is about
  that idealised fabric.
- Services over several overlays in one job are covered as entities that leave each other alone, which is a premise
  (`Deployment.JobOf`) and not derived for overlays with separate VNI allocators. For the nodes and the services over
  one overlay it is derived (`Deployment.WholeJobRenders`).
- The last premise of `Deployment.HubsFit` is that generated names tell services apart, which `Hubs.HostNamesTell`
  derives for nodes without underscores in their names.
- Learning, unicast forwarding, ARP and time to live: `Forwarding` follows flooded frames, and L2PP frames through
  cross-connects; bridges are required to have flooding on.
- VNIs are uint32 as in the source; the 24 bits of section 5 of RFC 7348 are not enforced there either.
- Node- and service-scope pools, pools created or deleted while numbers are held, VRF ids, MAC and memif ids.
- Bitmaps.Bitmap.String: requires fewer than 2^32 - 1 bits, because the source's uint32 loop counter wraps and the loop
  does not end there; the same for Bitmaps.Bitmap.RunList.
- Ipam.PoolAllocator.AllocateIPAddress: requires that the scanning loops end; with an end of range of 2^32 - 1 the source's
  counter wraps. Reachable pools meet it (Ipam.AllocationIsLeastFree).
- Overlay.RenderLoopbackAndRoutes: requires that labelled interfaces have an address, because the source takes the first one
  without looking.
- RenderTxn.Transactor.ConfigStart: requires that cached entries are filed under their own keys; the source ends the process
  otherwise.
- Services.RenderConnection: requires that the nodes are known, that interfaces stand in a connection once and bear no
  generated names, and that the ends of an L2PP connection are at different nodes; the callers of the renderers see to
  the nodes, and the validation of a configuration is not modelled.
- Mesh.RenderMesh: requires that fixed tunnel addresses, if no pool is named, differ between nodes; the same for the other
  renderers. Which interface's address is the fixed one is not modelled.
- Entities.EntityManager.LoadRecorded: a value of another type than the recorded one is an error in the model; in the
  source the decoder decides.
- Tunnels.AddressBook.AllocateVxlanAddress: an address book draws from one pool; the source keys its cache of addresses by
  node and would hand an address of another pool on (plugins/controller/networknodeoverlay.go:125).
- PoolNumbers.PoolManager.MakeAllocators: requires ranges that end below 2^32 - 1, where the source's scan wraps.
- Interfaces.InterfaceManager.RestoreAll: requires that the stored numbers can be marked, which every run keeps while pools
  stay; what happens otherwise is `Interfaces.EveryOrderMarksExactlyIf`.
- Interfaces.InterfaceManager.Restart: a restart is the same objects with their allocators reset and their tables read back.
- MessageLoop.Loop.ProcessOperationalMessages: etcd is taken to hold only keys that the controller manages.
