/** The message loop and the overlays together: what the VPPs do whenever the loop is in sync. */
module Running {
  import opened Entries
  import opened Entities
  import opened Forwarding
  import opened PointToPoint
  import opened Services
  import opened Deployment
  import opened MessageLoop

  /**
   * Whenever the loop renders its current configuration, the services are rendered, and nothing interferes with them.
   */
  ghost predicate RendersServices<C(!new)>(loop: Loop<C>, render: Renderer<C>, sh: Common, services: seq<ServiceSpec>)
    reads loop, loop.pods
  {
    forall n: nat :: exists o :: JobRenders(render(loop.config, loop.pods.effective, n), sh, services, o)
  }

  /** A loop that is in sync with the services that it renders. */
  ghost predicate InSyncWith<C(!new)>(loop: Loop<C>, render: Renderer<C>, sh: Common, services: seq<ServiceSpec>)
    requires forall c, p, n :: render(c, p, n).Valid()
    reads loop, loop.pods, loop.entities, loop.txn
  {
    && loop.Valid() && loop.Synced(render) && RendersServices(loop, render, sh, services)
    && SpecsFit(sh, services) && UsedOnce(services)
  }

  /** The service's status says that it is up. */
  ghost predicate IsUp(status: map<string, Status>, service: ServiceSpec)
  {
    ServiceEntity(service.name) in status && status[ServiceEntity(service.name)].up
  }

  /** The job that the loop is in sync with, and what rendering its services gave. */
  lemma LoopHolds<C(!new)>(loop: Loop<C>, render: Renderer<C>, sh: Common, services: seq<ServiceSpec>)
    returns (job: Job, o: Outcome)
    requires (forall c, p, n :: render(c, p, n).Valid()) && InSyncWith(loop, render, sh, services)
    ensures JobRenders(job, sh, services, o) && EtcdHolds(job, loop.txn.etcd)
    ensures forall k | 0 <= k < |services| && IsUp(loop.entities.status, services[k]) ::
              Succeeds(job.plans[ServiceEntity(services[k].name)])
  {
    var n: nat :| InSync(loop.txn.Value(), render(loop.config, loop.pods.effective, n), loop.entities.status);
    job := render(loop.config, loop.pods.effective, n);
    o :| JobRenders(job, sh, services, o);
    SyncedHolds(loop.txn.Value(), job, loop.entities.status);
    forall k | 0 <= k < |services| && IsUp(loop.entities.status, services[k])
      ensures Succeeds(job.plans[ServiceEntity(services[k].name)])
    {
      assert job.plans[ServiceEntity(services[k].name)] == Plan(true, o.steps[k]);
      assert loop.entities.status[ServiceEntity(services[k].name)] == NewStatus(Plan(true, o.steps[k]));
    }
  }

  /**
   * Whenever the message loop is in sync, which it is after every render request that was written, each mesh
   * connection of each service that is up floods exactly once among its own pod interfaces.
   */
  lemma RunningMeshesFloodOnce<C(!new)>(hw: map<Key, KV>, loop: Loop<C>, render: Renderer<C>, sh: Common,
                                        services: seq<ServiceSpec>, k: nat, i: nat, src: Port)
    requires (forall c, p, n :: render(c, p, n).Valid()) && InSyncWith(loop, render, sh, services)
    requires sh.kind.MeshOverlay? && k < |services| && IsUp(loop.entities.status, services[k])
    requires i < |services[k].conns|
    requires var c := services[k].conns[i]; c.L2MP? && c.parms.flood && src in PortsOf(c.pods)
    requires Hardware(hw) && EthernetIn(hw, services[k].conns[i])
    ensures Serves(OnHardware(hw, loop.txn.etcd), PortsOf(services[k].conns[i].pods), src, 2)
  {
    var job, o := LoopHolds(loop, render, sh, services);
    MeshesFloodOnce(hw, loop.txn.etcd, job, sh, services, o, k, i, src);
  }

  /** Likewise each L2PP connection of each service that is up joins its two ends and nothing else. */
  lemma RunningWiresMatch<C(!new)>(hw: map<Key, KV>, loop: Loop<C>, render: Renderer<C>, sh: Common,
                                   services: seq<ServiceSpec>, k: nat, i: nat, x: nat, dst: Port)
    requires (forall c, p, n :: render(c, p, n).Valid()) && InSyncWith(loop, render, sh, services)
    requires sh.kind.MeshOverlay? && k < |services| && IsUp(loop.entities.status, services[k])
    requires i < |services[k].conns| && services[k].conns[i].L2PP? && x < 2
    requires Hardware(hw) && EthernetIn(hw, services[k].conns[i])
    ensures var c, cfg := services[k].conns[i], OnHardware(hw, loop.txn.etcd);
            && (Reaches(cfg, EndAt(c, x).AsPort(), dst) <==> dst == EndAt(c, 1 - x).AsPort())
            && Attached(cfg, EndAt(c, x).AsPort()) && Attached(cfg, EndAt(c, 1 - x).AsPort())
  {
    var job, o := LoopHolds(loop, render, sh, services);
    WiresMatch(hw, loop.txn.etcd, job, sh, services, o, k, i, x, dst);
  }

  /**
   * And each hub-and-spoke connection of each service that is up, whose nodes no other connection of any of the
   * services has, floods exactly once among its own pod interfaces.
   */
  lemma RunningHubsFloodOnce<C(!new)>(hw: map<Key, KV>, loop: Loop<C>, render: Renderer<C>, sh: Common,
                                      services: seq<ServiceSpec>, k: nat, i: nat, src: Port)
    requires (forall c, p, n :: render(c, p, n).Valid()) && InSyncWith(loop, render, sh, services)
    requires HubsFit(sh, services) && k < |services| && IsUp(loop.entities.status, services[k])
    requires i < |services[k].conns| && services[k].conns[i].L2MP? && src in PortsOf(services[k].conns[i].pods)
    requires forall l, j | 0 <= l < |services| && 0 <= j < |services[l].conns| && (l, j) != (k, i) ::
               NodesOf(services[k].conns[i].Pods()) !! NodesOf(services[l].conns[j].Pods())
    requires Hardware(hw) && EthernetIn(hw, services[k].conns[i])
    ensures Serves(OnHardware(hw, loop.txn.etcd), PortsOf(services[k].conns[i].pods), src, 3)
  {
    var job, o := LoopHolds(loop, render, sh, services);
    var r := RunOf(job, sh, services, o, k);
    forall t, j | Within(o.runs, t, j) && (t, j) != (r, i)
      ensures NodesOf(o.runs[r].conns[i].Pods()) !! NodesOf(o.runs[t].conns[j].Pods())
    {
      assert t != r ==> o.whose[t] != o.whose[r];
    }
    HubsFloodOnce(hw, loop.txn.etcd, job, sh, services, o, r, i, src);
  }
}
