/**
 * From a service's configuration to what the VPPs do: what is proved of rendered entries holds of etcd after the
 * commit.
 */
module Deployment {
  import opened Text
  import opened Unsigned
  import opened Entries
  import opened Commit
  import opened Entities
  import opened Layers
  import opened Forwarding
  import opened Overlay
  import opened Layouts
  import opened PointToPoint
  import opened Coexisting
  import opened PodInterfaces
  import opened Services
  import opened Hubs
  import opened Nodes
  import opened Tunnels
  import Vnis

  /** What the agents read from etcd. */
  ghost function AsConfig(etcd: map<Key, Body>): Config { map k | k in etcd :: KV(k, etcd[k]) }

  /** What stands at the agents: the interfaces that the nodes have of themselves, and what is read from etcd. */
  ghost function OnHardware(hw: map<Key, KV>, etcd: map<Key, Body>): Config { hw + AsConfig(etcd) }

  /** Two entries say the same, save for the description of a route. */
  ghost predicate SaySame(x: Body, y: Body)
  {
    || x == y
    || (x.RouteBody? && y.RouteBody? && x.route.vrf == y.route.vrf && x.route.dst == y.route.dst &&
        x.route.nextHop == y.route.nextHop && x.route.weight == y.route.weight &&
        x.route.outgoing == y.route.outgoing && x.route.preference == y.route.preference)
  }

  /** The configurations differ in descriptions of routes at most. */
  ghost predicate SameButDescriptions(c: Config, d: Config)
  {
    forall k: Key :: (k in c <==> k in d) && (k in c ==> SaySame(c[k].body, d[k].body))
  }

  lemma EqualSaysSame(a: KV, b: KV)
    requires Equal(a, b) && TypedByKey(b)
    ensures SaySame(a.body, b.body)
  {
    EqualIsSameMeaning(a, b);
  }

  lemma SameOnHardware(hw: map<Key, KV>, c: Config, d: Config)
    requires SameButDescriptions(c, d)
    ensures SameButDescriptions(hw + c, hw + d)
  {
    forall k: Key
      ensures (k in hw + c <==> k in hw + d) && (k in hw + c ==> SaySame((hw + c)[k].body, (hw + d)[k].body))
    {
      assert k in c <==> k in d;
    }
  }

  /** After a commit etcd holds the rendering, up to descriptions of routes. */
  lemma CommittedIsRendered(s: State, r: map<Key, KV>)
    requires Agree(s) && Keyed(s.cache) && Keyed(r)
    ensures SameButDescriptions(AsConfig(Committed(s, r).etcd), r)
  {
    var c := Committed(s, r).cache;
    CommitMatchesRendering(s, r);
    CommitKeepsAgreement(s, r);
    forall k: Key | k in c ensures SaySame(c[k].body, r[k].body) { EqualSaysSame(c[k], r[k]); }
  }

  lemma SameHop(c: Config, d: Config, h: Hop)
    requires SameButDescriptions(c, d)
    ensures Copies(c, h) <==> Copies(d, h)
    ensures Copies(c, h) ==> In(c, h) == In(d, h) && Out(c, h) == Out(d, h)
  {
    var k := BridgeKey(h.node, h.bridge);
    assert k in c <==> k in d;
  }

  lemma SameTunnel(c: Config, d: Config, p: Port)
    requires SameButDescriptions(c, d)
    ensures IsTunnel(c, p) <==> IsTunnel(d, p)
    ensures IsTunnel(c, p) ==> TunnelAt(c, p) == TunnelAt(d, p)
  {
    var k := InterfaceKey(p.node, p.ifName);
    assert k in c <==> k in d;
  }

  lemma SameLink(c: Config, d: Config, p: Port, q: Port)
    requires SameButDescriptions(c, d)
    ensures Linked(c, p, q) <==> Linked(d, p, q)
  {
    SameTunnel(c, d, p);
    SameTunnel(c, d, q);
  }

  lemma PathCarriesOver(c: Config, d: Config, t: seq<Hop>)
    requires SameButDescriptions(c, d) && Path(c, t)
    ensures Path(d, t) && In(c, t[0]) == In(d, t[0]) && Out(c, t[|t| - 1]) == Out(d, t[|t| - 1])
  {
    forall h ensures Copies(c, h) <==> Copies(d, h) { SameHop(c, d, h); }
    forall i, j | 0 <= i && j == i + 1 < |t| ensures Linked(d, Out(d, t[i]), In(d, t[j])) {
      SameHop(c, d, t[i]);
      SameHop(c, d, t[j]);
      SameLink(c, d, Out(c, t[i]), In(c, t[j]));
    }
    SameHop(c, d, t[0]);
    SameHop(c, d, t[|t| - 1]);
  }

  lemma DeliveryCarriesOver(c: Config, d: Config, t: seq<Hop>, src: Port, dst: Port)
    requires SameButDescriptions(c, d)
    ensures Delivers(c, t, src, dst) <==> Delivers(d, t, src, dst)
  {
    SameTunnel(c, d, dst);
    if Path(c, t) { PathCarriesOver(c, d, t); }
    if Path(d, t) { PathCarriesOver(d, c, t); }
  }

  lemma FloodCarriesOver(c: Config, d: Config, ports: seq<Port>, src: Port, hops: nat)
    requires SameButDescriptions(c, d) && FloodsOnce(c, ports, src, hops)
    ensures FloodsOnce(d, ports, src, hops)
  {
    forall t, dst ensures Delivers(c, t, src, dst) <==> Delivers(d, t, src, dst) {
      DeliveryCarriesOver(c, d, t, src, dst);
    }
    forall dst | dst in ports && dst != src ensures DeliversOnce(d, src, dst) {
      assert DeliversOnce(c, src, dst);
      var t :| Delivers(c, t, src, dst);
      assert Delivers(d, t, src, dst);
    }
    forall t | Path(d, t) && In(d, t[0]) == src ensures |t| <= hops { PathCarriesOver(d, c, t); }
  }

  lemma ArrivalCarriesOver(c: Config, d: Config, t: seq<Port>, src: Port, dst: Port)
    requires SameButDescriptions(c, d) && Arrives(c, t, src, dst)
    ensures Arrives(d, t, src, dst)
  {
    SameTunnel(c, d, dst);
    forall p ensures (Crossed(c, p) <==> Crossed(d, p)) && (Crossed(c, p) ==> Sent(c, p) == Sent(d, p)) {
      assert XConnectKey(p.node, p.ifName) in c <==> XConnectKey(p.node, p.ifName) in d;
    }
    forall i, j | 0 <= i && j == i + 1 < |t| ensures Linked(d, Sent(d, t[i]), t[j]) {
      SameLink(c, d, Sent(c, t[i]), t[j]);
    }
  }

  lemma AttachmentCarriesOver(c: Config, d: Config, p: Port)
    requires SameButDescriptions(c, d)
    ensures Attached(c, p) <==> Attached(d, p)
  {
    assert InterfaceKey(p.node, p.ifName) in c <==> InterfaceKey(p.node, p.ifName) in d;
  }

  lemma {:induction false} LayBlocksIsOverride(m: map<Key, KV>, blocks: seq<seq<KV>>)
    ensures LayBlocks(m, blocks) == m + LayBlocks(map[], blocks)
    decreases blocks
  {
    if blocks != [] {
      var init, last := blocks[..|blocks| - 1], blocks[|blocks| - 1];
      LayBlocksIsOverride(m, init);
      LayIsOverride(LayBlocks(m, init), last);
      LayIsOverride(LayBlocks(map[], init), last);
    }
  }

  /** The blocks of all entities that render without error, in order. */
  ghost function AllBlocks(order: seq<string>, plans: map<string, Plan>): seq<seq<KV>>
    requires forall n | n in order :: n in plans
    decreases order
  {
    if order == [] then [] else
      var p := plans[order[|order| - 1]];
      AllBlocks(order[..|order| - 1], plans) + if Succeeds(p) then Blocks(p.steps) else []
  }

  lemma {:induction false} NoFailures(steps: seq<Step>)
    requires Messages(steps) == []
    ensures forall s | s in steps :: !s.Fail?
    decreases steps
  {
    if steps != [] { NoFailures(steps[1..]); }
  }

  lemma {:induction false} NoMessages(steps: seq<Step>)
    requires forall s | s in steps :: !s.Fail?
    ensures Messages(steps) == []
    decreases steps
  {
    if steps != [] {
      assert steps[0] in steps;
      NoMessages(steps[1..]);
    }
  }

  /** A rendering is the blocks of the entities that render without error, laid over each other in order. */
  lemma {:induction false} RenderingIsBlocks(order: seq<string>, plans: map<string, Plan>)
    requires forall n | n in order :: n in plans
    ensures Rendering(order, plans) == LayBlocks(map[], AllBlocks(order, plans))
    decreases order
  {
    if order != [] {
      var init, p := order[..|order| - 1], plans[order[|order| - 1]];
      RenderingIsBlocks(init, plans);
      if Succeeds(p) {
        NoFailures(p.steps);
        ExecAllLays(EMPTY, p.steps);
        LayBlocksConcat(map[], AllBlocks(init, plans), Blocks(p.steps));
        LayBlocksIsOverride(Rendering(init, plans), Blocks(p.steps));
      } else {
        assert AllBlocks(init, plans) + [] == AllBlocks(init, plans);
      }
    }
  }

  lemma {:induction false} InAllBlocks(order: seq<string>, plans: map<string, Plan>, x: seq<KV>)
    requires forall n | n in order :: n in plans
    ensures x in AllBlocks(order, plans) <==>
              exists n :: n in order && Succeeds(plans[n]) && x in Blocks(plans[n].steps)
    decreases order
  {
    if order != [] {
      var init, last := order[..|order| - 1], order[|order| - 1];
      InAllBlocks(init, plans, x);
      assert forall n :: n in order <==> n in init || n == last;
    }
  }

  /** Etcd holds the blocks of all entities of a job, up to descriptions of routes. */
  ghost predicate EtcdHolds(job: Job, etcd: map<Key, Body>)
    requires job.Valid()
  {
    SameButDescriptions(LayBlocks(map[], AllBlocks(job.order, job.plans)), AsConfig(etcd))
  }

  /** It does so after a commit of the job. */
  lemma CommittedHolds(s: State, job: Job)
    requires Agree(s) && Keyed(s.cache) && job.Valid()
    ensures EtcdHolds(job, Committed(s, job.Result()).etcd)
  {
    JobIsRecorded(job, map[]);
    RenderingIsRecorded(job.order, job.plans, StatusesAfter(job.order, job.plans, map[]));
    RenderingIsBlocks(job.order, job.plans);
    CommittedIsRendered(s, job.Result());
  }

  /** And so it does whenever cache, etcd and statuses are in sync with the job. */
  lemma SyncedHolds(s: State, job: Job, status: map<string, Status>)
    requires Keyed(s.cache) && job.Valid() && InSync(s, job, status)
    ensures EtcdHolds(job, s.etcd)
  {
    JobIsRecorded(job, map[]);
    RenderingIsRecorded(job.order, job.plans, StatusesAfter(job.order, job.plans, map[]));
    RenderingIsBlocks(job.order, job.plans);
    forall k: Key | k in s.cache ensures SaySame(s.cache[k].body, job.Result()[k].body) {
      EqualSaysSame(s.cache[k], job.Result()[k]);
    }
  }

  /** On top of whatever interfaces the nodes have. */
  lemma HeldOnHardware(hw: map<Key, KV>, job: Job, etcd: map<Key, Body>)
    requires job.Valid() && EtcdHolds(job, etcd)
    ensures SameButDescriptions(LayBlocks(hw, AllBlocks(job.order, job.plans)), OnHardware(hw, etcd))
  {
    var all := AllBlocks(job.order, job.plans);
    LayBlocksIsOverride(hw, all);
    SameOnHardware(hw, LayBlocks(map[], all), AsConfig(etcd));
  }

  lemma {:induction false} StepsTyped(steps: seq<Step>, x: seq<KV>)
    requires (forall s | s in steps :: WellTyped(s)) && x in Blocks(steps)
    ensures BlockTyped(x)
    decreases steps
  {
    if x != StepEntries(steps[0]) { StepsTyped(steps[1..], x); } else { assert WellTyped(steps[0]); }
  }

  lemma JobIsTyped(job: Job)
    requires job.Valid()
    ensures forall x | x in AllBlocks(job.order, job.plans) :: BlockTyped(x)
  {
    forall x | x in AllBlocks(job.order, job.plans) ensures BlockTyped(x) {
      InAllBlocks(job.order, job.plans, x);
      var n :| n in job.order && Succeeds(job.plans[n]) && x in Blocks(job.plans[n].steps);
      StepsTyped(job.plans[n].steps, x);
    }
  }

  /** What rendering the services gave: their steps, and the addresses and VNIs that they got. */
  datatype Outcome = Outcome(addr: map<string, string>, steps: seq<seq<Step>>, runs: seq<Run>, whose: seq<nat>,
                             numbers: set<u32>)

  /** As RenderServices leaves it. */
  ghost predicate IsOutcome(sh: Common, services: seq<ServiceSpec>, o: Outcome)
  {
    && |o.steps| == |services| && ServicesDone(sh, services, o.addr, o.steps, o.runs, o.whose)
    && NumbersFit(sh.kind, o.runs, o.numbers) && RunsDone(o.runs, o.addr)
  }

  /** The names of entities tell nodes from services. */
  function NodeEntity(name: string): string { "network-node/" + name }

  function ServiceEntity(name: string): string { "network-service/" + name }

  /**
   * A job with the given services: each has the steps that were rendered for it, and no other entity interferes with
   * the services' connections.
   */
  ghost predicate JobOf(job: Job, services: seq<ServiceSpec>, o: Outcome)
    requires job.Valid() && RunsDone(o.runs, o.addr) && |o.steps| == |services|
  {
    && PartsAreValid(PartsOf(o.runs, o.addr))
    && (forall k | 0 <= k < |services| :: var n := ServiceEntity(services[k].name);
          n in job.order && job.plans[n] == Plan(true, o.steps[k]))
    && forall n, x | n in job.order && Succeeds(job.plans[n]) && x in Blocks(job.plans[n].steps) ::
         (exists k | 0 <= k < |services| :: ServiceEntity(services[k].name) == n)
         || Harmless(x, PartsOf(o.runs, o.addr))
  }

  /** A job in which the services were rendered. */
  ghost predicate JobRenders(job: Job, sh: Common, services: seq<ServiceSpec>, o: Outcome)
  {
    job.Valid() && IsOutcome(sh, services, o) && JobOf(job, services, o)
  }

  lemma BlocksOfRun(job: Job, sh: Common, services: seq<ServiceSpec>, o: Outcome, r: nat, x: seq<KV>)
    requires JobRenders(job, sh, services, o) && r < |o.runs|
    requires InService(o.runs[r].sh, o.runs[r].used, o.addr, o.runs[r].conns, x)
    ensures x in AllBlocks(job.order, job.plans)
  {
    var k := o.whose[r];
    NoMessages(o.steps[k]);
    InAllBlocks(job.order, job.plans, x);
    assert ServiceEntity(services[k].name) in job.order && Succeeds(job.plans[ServiceEntity(services[k].name)]);
  }

  lemma BlockIsOfRun(job: Job, sh: Common, services: seq<ServiceSpec>, o: Outcome, x: seq<KV>)
    requires JobRenders(job, sh, services, o) && x in AllBlocks(job.order, job.plans)
    ensures || (exists r | 0 <= r < |o.runs| ::
                  InService(o.runs[r].sh, o.runs[r].used, o.addr, o.runs[r].conns, x))
            || Harmless(x, PartsOf(o.runs, o.addr))
  {
    InAllBlocks(job.order, job.plans, x);
    var n :| n in job.order && Succeeds(job.plans[n]) && x in Blocks(job.plans[n].steps);
    if k :| 0 <= k < |services| && ServiceEntity(services[k].name) == n {
      var r := RunOf(job, sh, services, o, k);
      assert InService(o.runs[r].sh, o.runs[r].used, o.addr, o.runs[r].conns, x);
    }
  }

  /** A service that rendered without an error is one of the runs. */
  lemma RunOf(job: Job, sh: Common, services: seq<ServiceSpec>, o: Outcome, k: nat) returns (r: nat)
    requires JobRenders(job, sh, services, o) && k < |services| && Succeeds(job.plans[ServiceEntity(services[k].name)])
    ensures r < |o.runs| && o.whose[r] == k
  {
    assert job.plans[ServiceEntity(services[k].name)] == Plan(true, o.steps[k]);
    assert k in o.whose;
    r :| 0 <= r < |o.whose| && o.whose[r] == k;
  }

  /** The blocks of a job are those of its services' connections and interfaces, and harmless ones. */
  lemma JobBlocks(job: Job, sh: Common, services: seq<ServiceSpec>, o: Outcome)
    requires JobRenders(job, sh, services, o)
    ensures RunsBlocks(o.runs, o.addr, AllBlocks(job.order, job.plans))
  {
    var all := AllBlocks(job.order, job.plans);
    forall r, x | 0 <= r < |o.runs| && InService(o.runs[r].sh, o.runs[r].used, o.addr, o.runs[r].conns, x)
      ensures x in all
    {
      BlocksOfRun(job, sh, services, o, r, x);
    }
    forall x | x in all
      ensures || (exists r | 0 <= r < |o.runs| ::
                    InService(o.runs[r].sh, o.runs[r].used, o.addr, o.runs[r].conns, x))
              || Harmless(x, PartsOf(o.runs, o.addr))
    {
      BlockIsOfRun(job, sh, services, o, x);
    }
  }

  /** Interfaces that are used once, and services of different names. */
  ghost predicate UsedOnce(services: seq<ServiceSpec>)
  {
    && (forall k, l | 0 <= k < l < |services| :: services[k].name != services[l].name)
    && forall k, i, l, j | 0 <= k < |services| && 0 <= i < |services[k].conns| && 0 <= l < |services| &&
         0 <= j < |services[l].conns| && (k, i) != (l, j) :: PortsDiffer(services[k].conns[i], services[l].conns[j])
  }

  lemma ServicesAreApart(sh: Common, services: seq<ServiceSpec>, o: Outcome)
    requires IsOutcome(sh, services, o) && sh.kind.MeshOverlay? && SpecsFit(sh, services) && UsedOnce(services)
    ensures RunsApart(o.runs)
  {
    var runs := o.runs;
    forall s, i | Within(runs, s, i)
      ensures forall p | p in runs[s].conns[i].Pods() :: !(TUNNEL_PREFIX <= p.name)
    {
      assert ConnectionFits(SharedBy(sh, services[o.whose[s]].name), services[o.whose[s]].conns[i]);
    }
    forall s, i, t, j | Within(runs, s, i) && Within(runs, t, j) && (s, i) != (t, j)
      ensures PortsDiffer(runs[s].conns[i], runs[t].conns[j])
    {
      RunsUsedOnce(sh, services, o, s, i, t, j);
    }
  }

  lemma RunsUsedOnce(sh: Common, services: seq<ServiceSpec>, o: Outcome, s: nat, i: nat, t: nat, j: nat)
    requires IsOutcome(sh, services, o) && UsedOnce(services)
    requires Within(o.runs, s, i) && Within(o.runs, t, j) && (s, i) != (t, j)
    ensures PortsDiffer(o.runs[s].conns[i], o.runs[t].conns[j])
  {
    assert s != t ==> o.whose[s] != o.whose[t];
    assert (o.whose[s], i) != (o.whose[t], j);
  }

  /** What RenderServices renders is well typed, as a job needs it. */
  lemma ServicesAreTyped(sh: Common, services: seq<ServiceSpec>, o: Outcome, k: nat)
    requires IsOutcome(sh, services, o) && SpecsFit(sh, services) && k < |services|
    ensures PlanTyped(Plan(true, o.steps[k]))
  {
    if Messages(o.steps[k]) == [] {
      assert k in o.whose;
      var r :| 0 <= r < |o.whose| && o.whose[r] == k;
      var run := o.runs[r];
      forall i | 0 <= i < |run.used| ensures forall p | p in run.conns[i].Pods() :: !(TUNNEL_PREFIX <= p.name) {
        assert ConnectionFits(SharedBy(sh, services[k].name), services[k].conns[i]);
      }
      ServiceIsTyped(run.sh, run.used, o.addr, run.conns, o.steps[k]);
    }
  }

  /** Nodes of different names, whose interfaces do not bear names of generated tunnels. */
  ghost predicate NodesFit(nodes: seq<Node>)
  {
    && (forall k, l | 0 <= k < l < |nodes| :: nodes[k].name != nodes[l].name)
    && forall k | 0 <= k < |nodes| :: PlainNames(nodes[k], |nodes[k].ifaces|)
  }

  /** The job of a configuration: first all nodes, then all services. */
  ghost function WholeJob(nodes: seq<Node>, nodeSteps: seq<seq<Step>>, services: seq<ServiceSpec>,
                          steps: seq<seq<Step>>): Job
    requires |nodeSteps| == |nodes| && |steps| == |services| && NodesFit(nodes) && UsedOnce(services)
  {
    Job(WholeOrder(nodes, services), NodePlans(nodes, nodeSteps) + ServicePlans(services, steps))
  }

  ghost function WholeOrder(nodes: seq<Node>, services: seq<ServiceSpec>): seq<string>
  {
    seq(|nodes|, k requires 0 <= k < |nodes| => NodeEntity(nodes[k].name))
    + seq(|services|, k requires 0 <= k < |services| => ServiceEntity(services[k].name))
  }

  /** All nodes come before all services. */
  lemma NodesComeFirst(nodes: seq<Node>, services: seq<ServiceSpec>, i: nat, j: nat)
    requires i < |nodes| && j < |services|
    ensures exists a, b | 0 <= a < b < |WholeOrder(nodes, services)| ::
              WholeOrder(nodes, services)[a] == NodeEntity(nodes[i].name) &&
              WholeOrder(nodes, services)[b] == ServiceEntity(services[j].name)
  {
    var order := WholeOrder(nodes, services);
    assert order[i] == NodeEntity(nodes[i].name) && order[|nodes| + j] == ServiceEntity(services[j].name);
  }

  lemma InWholeOrder(nodes: seq<Node>, services: seq<ServiceSpec>, n: string) returns (k: nat, isNode: bool)
    requires n in WholeOrder(nodes, services)
    ensures if isNode then k < |nodes| && n == NodeEntity(nodes[k].name)
            else k < |services| && n == ServiceEntity(services[k].name)
  {
    var order := WholeOrder(nodes, services);
    var j :| 0 <= j < |order| && order[j] == n;
    isNode := j < |nodes|;
    k := if isNode then j else j - |nodes|;
  }

  ghost function NodePlans(nodes: seq<Node>, steps: seq<seq<Step>>): map<string, Plan>
    requires |steps| == |nodes| && NodesFit(nodes)
  {
    NodeEntitiesDiffer(nodes);
    map k | 0 <= k < |nodes| :: NodeEntity(nodes[k].name) := Plan(nodes[k].valid, steps[k])
  }

  ghost function ServicePlans(services: seq<ServiceSpec>, steps: seq<seq<Step>>): map<string, Plan>
    requires |steps| == |services| && UsedOnce(services)
  {
    ServiceEntitiesDiffer(services);
    map k | 0 <= k < |services| :: ServiceEntity(services[k].name) := Plan(true, steps[k])
  }

  lemma EntitiesDiffer(x: string, y: string)
    ensures NodeEntity(x) != ServiceEntity(y)
    ensures x != y ==> NodeEntity(x) != NodeEntity(y) && ServiceEntity(x) != ServiceEntity(y)
  {
    assert NodeEntity(x)[8] == 'n' && ServiceEntity(y)[8] == 's';
    if NodeEntity(x) == NodeEntity(y) { CommonPrefix("network-node/", x, y); }
    if ServiceEntity(x) == ServiceEntity(y) { CommonPrefix("network-service/", x, y); }
  }

  lemma NodeEntitiesDiffer(nodes: seq<Node>)
    requires NodesFit(nodes)
    ensures forall k, l | 0 <= k < |nodes| && 0 <= l < |nodes| && NodeEntity(nodes[k].name) == NodeEntity(nodes[l].name)
              :: k == l
  {
    forall k, l | 0 <= k < l < |nodes| ensures NodeEntity(nodes[k].name) != NodeEntity(nodes[l].name) {
      EntitiesDiffer(nodes[k].name, nodes[l].name);
    }
  }

  lemma ServiceEntitiesDiffer(services: seq<ServiceSpec>)
    requires UsedOnce(services)
    ensures forall k, l | 0 <= k < |services| && 0 <= l < |services| &&
              ServiceEntity(services[k].name) == ServiceEntity(services[l].name) :: k == l
  {
    forall k, l | 0 <= k < l < |services| ensures ServiceEntity(services[k].name) != ServiceEntity(services[l].name) {
      EntitiesDiffer(services[k].name, services[l].name);
    }
  }

  lemma NodePlanIs(nodes: seq<Node>, nodeSteps: seq<seq<Step>>, services: seq<ServiceSpec>, steps: seq<seq<Step>>,
                   k: nat)
    requires |nodeSteps| == |nodes| && |steps| == |services| && NodesFit(nodes) && UsedOnce(services) && k < |nodes|
    ensures var plans, n := WholeJob(nodes, nodeSteps, services, steps).plans, NodeEntity(nodes[k].name);
            n in plans && plans[n] == Plan(nodes[k].valid, nodeSteps[k])
  {
    var n := NodeEntity(nodes[k].name);
    NodeEntitiesDiffer(nodes);
    assert n in NodePlans(nodes, nodeSteps) && NodePlans(nodes, nodeSteps)[n] == Plan(nodes[k].valid, nodeSteps[k]);
    forall l | 0 <= l < |services| ensures n != ServiceEntity(services[l].name) {
      EntitiesDiffer(nodes[k].name, services[l].name);
    }
    assert n !in ServicePlans(services, steps);
  }

  lemma ServicePlanIs(nodes: seq<Node>, nodeSteps: seq<seq<Step>>, services: seq<ServiceSpec>, steps: seq<seq<Step>>,
                      k: nat)
    requires |nodeSteps| == |nodes| && |steps| == |services| && NodesFit(nodes) && UsedOnce(services) && k < |services|
    ensures var plans, n := WholeJob(nodes, nodeSteps, services, steps).plans, ServiceEntity(services[k].name);
            n in plans && plans[n] == Plan(true, steps[k])
  {
    ServiceEntitiesDiffer(services);
    assert ServiceEntity(services[k].name) in ServicePlans(services, steps);
  }

  /** What an entity of the whole job is: a node, or a service. */
  lemma EntityOf(nodes: seq<Node>, nodeSteps: seq<seq<Step>>, services: seq<ServiceSpec>, steps: seq<seq<Step>>,
                 n: string)
    returns (k: nat)
    requires |nodeSteps| == |nodes| && |steps| == |services| && NodesFit(nodes) && UsedOnce(services)
    requires n in WholeJob(nodes, nodeSteps, services, steps).order
    ensures n in WholeJob(nodes, nodeSteps, services, steps).plans
    ensures var plan := WholeJob(nodes, nodeSteps, services, steps).plans[n];
            || (k < |nodes| && n == NodeEntity(nodes[k].name) && plan == Plan(nodes[k].valid, nodeSteps[k]))
            || (k < |services| && n == ServiceEntity(services[k].name) && plan == Plan(true, steps[k]))
  {
    var isNode;
    k, isNode := InWholeOrder(nodes, services, n);
    if isNode {
      NodePlanIs(nodes, nodeSteps, services, steps, k);
    } else {
      ServicePlanIs(nodes, nodeSteps, services, steps, k);
    }
  }

  lemma OrderIsDistinct(nodes: seq<Node>, nodeSteps: seq<seq<Step>>, services: seq<ServiceSpec>,
                        steps: seq<seq<Step>>)
    requires |nodeSteps| == |nodes| && |steps| == |services| && NodesFit(nodes) && UsedOnce(services)
    ensures Distinct(WholeJob(nodes, nodeSteps, services, steps).order)
  {
    var order, m := WholeJob(nodes, nodeSteps, services, steps).order, |nodes|;
    forall i, j | 0 <= i < j < |order| ensures order[i] != order[j] {
      if j < m {
        EntitiesDiffer(nodes[i].name, nodes[j].name);
      } else if i < m {
        EntitiesDiffer(nodes[i].name, services[j - m].name);
      } else {
        EntitiesDiffer(services[i - m].name, services[j - m].name);
      }
    }
  }

  lemma NodeIsTyped(n: Node, steps: seq<Step>)
    requires NodeDone(n, steps) && PlainNames(n, |n.ifaces|)
    ensures PlanTyped(Plan(n.valid, steps))
  {
    if IfacesReady(n, |n.ifaces|) {
      NodeEntriesArePlain(n);
      AddsBlocks(NodeEntries(n));
      forall s | s in steps ensures WellTyped(s) { InBlocks(steps, s); }
    }
  }

  lemma NodeIsHarmless(n: Node, steps: seq<Step>, ps: iset<Part>, x: seq<KV>)
    requires NodeDone(n, steps) && PlainNames(n, |n.ifaces|) && Messages(steps) == [] && x in Blocks(steps)
    requires PartsAreValid(ps)
    ensures Harmless(x, ps)
  {
    NodeEntriesArePlain(n);
    AddsBlocks(NodeEntries(n));
    forall p | p in ps ensures PartBeside(x, p) && PartUnlike(Own(x), p) { PlainIsHarmless(x, p); }
  }

  /** Nodes and services as RenderNodes and RenderServices have rendered them. */
  ghost predicate WholeFits(nodes: seq<Node>, nodeSteps: seq<seq<Step>>, sh: Common, services: seq<ServiceSpec>,
                            o: Outcome)
  {
    && NodesFit(nodes) && NodesDone(nodes, nodeSteps)
    && SpecsFit(sh, services) && UsedOnce(services) && IsOutcome(sh, services, o)
  }

  lemma WholeJobIsValid(nodes: seq<Node>, nodeSteps: seq<seq<Step>>, sh: Common, services: seq<ServiceSpec>,
                        o: Outcome)
    requires WholeFits(nodes, nodeSteps, sh, services, o)
    ensures WholeJob(nodes, nodeSteps, services, o.steps).Valid()
  {
    var job := WholeJob(nodes, nodeSteps, services, o.steps);
    OrderIsDistinct(nodes, nodeSteps, services, o.steps);
    forall n | n in job.order ensures n in job.plans && PlanTyped(job.plans[n]) {
      var k := EntityOf(nodes, nodeSteps, services, o.steps, n);
      if k < |nodes| && n == NodeEntity(nodes[k].name) { NodeIsTyped(nodes[k], nodeSteps[k]); }
      if k < |services| && n == ServiceEntity(services[k].name) { ServicesAreTyped(sh, services, o, k); }
    }
  }

  /**
   * A node adds exactly its Ethernet interfaces and bridges if its configuration is valid and all these interfaces have
   * a status, and else nothing.
   */
  lemma NodeContributes(nodes: seq<Node>, nodeSteps: seq<seq<Step>>, services: seq<ServiceSpec>, steps: seq<seq<Step>>,
                        i: nat, k: Key)
    requires |nodeSteps| == |nodes| && |steps| == |services| && NodesFit(nodes) && UsedOnce(services)
    requires NodesDone(nodes, nodeSteps) && i < |nodes|
    ensures var n := nodes[i]; var job := WholeJob(nodes, nodeSteps, services, steps);
            && NodeEntity(n.name) in job.plans
            && (k in Contribution(job.plans[NodeEntity(n.name)]) <==>
                  n.valid && IfacesReady(n, |n.ifaces|) && exists kv :: kv in NodeEntries(n) && kv.key == k)
  {
    NodePlanIs(nodes, nodeSteps, services, steps, i);
    assert NodeDone(nodes[i], nodeSteps[i]);
    AddsContribute(NodeEntries(nodes[i]), k);
  }

  lemma AddsContribute(kvs: seq<KV>, k: Key)
    ensures Messages(Adds(kvs)) == []
    ensures k in ExecAll(EMPTY, Adds(kvs)).entries <==> exists kv :: kv in kvs && kv.key == k
  {
    AddsBlocks(kvs);
    AddsSucceed(Adds(kvs));
    ExecAllLays(EMPTY, Adds(kvs));
    LayBlocksFrom(map[], Blocks(Adds(kvs)), k);
    forall kv ensures Own([kv]) == map[kv.key := kv] { OwnOne(kv); }
    if kv :| kv in kvs && kv.key == k { assert [kv] in Blocks(Adds(kvs)) && k in Own([kv]); }
  }

  lemma {:induction false} AddsSucceed(steps: seq<Step>)
    requires forall s | s in steps :: s.Add?
    ensures Messages(steps) == []
    decreases steps
  {
    if steps != [] {
      assert steps[0] in steps;
      AddsSucceed(steps[1..]);
    }
  }

  lemma ServiceInJob(nodes: seq<Node>, nodeSteps: seq<seq<Step>>, services: seq<ServiceSpec>, steps: seq<seq<Step>>,
                     k: nat)
    requires |nodeSteps| == |nodes| && |steps| == |services| && NodesFit(nodes) && UsedOnce(services) && k < |services|
    ensures var job, n := WholeJob(nodes, nodeSteps, services, steps), ServiceEntity(services[k].name);
            n in job.order && n in job.plans && job.plans[n] == Plan(true, steps[k])
  {
    var job := WholeJob(nodes, nodeSteps, services, steps);
    assert job.order[|nodes| + k] == ServiceEntity(services[k].name);
    ServicePlanIs(nodes, nodeSteps, services, steps, k);
  }

  /** So they make up a job in which the services were rendered: the entries of nodes leave the services alone. */
  lemma WholeJobRenders(nodes: seq<Node>, nodeSteps: seq<seq<Step>>, sh: Common, services: seq<ServiceSpec>,
                        o: Outcome)
    requires WholeFits(nodes, nodeSteps, sh, services, o)
    ensures JobRenders(WholeJob(nodes, nodeSteps, services, o.steps), sh, services, o)
  {
    var job, ps := WholeJob(nodes, nodeSteps, services, o.steps), PartsOf(o.runs, o.addr);
    WholeJobIsValid(nodes, nodeSteps, sh, services, o);
    RunPartsValid(o.runs, o.addr);
    forall k | 0 <= k < |services|
      ensures var n := ServiceEntity(services[k].name); n in job.order && job.plans[n] == Plan(true, o.steps[k])
    {
      ServiceInJob(nodes, nodeSteps, services, o.steps, k);
    }
    forall n, x | n in job.order && Succeeds(job.plans[n]) && x in Blocks(job.plans[n].steps)
      ensures (exists k | 0 <= k < |services| :: ServiceEntity(services[k].name) == n) || Harmless(x, ps)
    {
      var k := EntityOf(nodes, nodeSteps, services, o.steps, n);
      if k < |nodes| && n == NodeEntity(nodes[k].name) && job.plans[n] == Plan(nodes[k].valid, nodeSteps[k]) {
        NodeIsHarmless(nodes[k], nodeSteps[k], ps, x);
      }
    }
  }

  /**
   * Over all layers, for all services that share an overlay, each with any number of mesh and L2PP connections: where
   * etcd holds their job, a frame from a pod interface of a mesh connection of a service that rendered without an
   * error reaches the other interfaces of that connection exactly once each, and nothing else, over at most two
   * bridges.
   */
  lemma MeshesFloodOnce(hw: map<Key, KV>, etcd: map<Key, Body>, job: Job, sh: Common, services: seq<ServiceSpec>,
                        o: Outcome, k: nat, i: nat, src: Port)
    requires SpecsFit(sh, services) && UsedOnce(services) && JobRenders(job, sh, services, o) && EtcdHolds(job, etcd)
    requires sh.kind.MeshOverlay? && k < |services| && Succeeds(job.plans[ServiceEntity(services[k].name)])
    requires i < |services[k].conns|
    requires var c := services[k].conns[i]; c.L2MP? && c.parms.flood && src in PortsOf(c.pods)
    requires Hardware(hw) && EthernetIn(hw, services[k].conns[i])
    ensures Serves(OnHardware(hw, etcd), PortsOf(services[k].conns[i].pods), src, 2)
  {
    var r := RunOf(job, sh, services, o, k);
    var all, ports := AllBlocks(job.order, job.plans), PortsOf(services[k].conns[i].pods);
    ServicesAreApart(sh, services, o);
    JobBlocks(job, sh, services, o);
    RunsTogether(o.runs, o.addr, all);
    HardwareIsForeign(hw, PartAt(o.runs, o.addr, r, i));
    EveryMeshFloodsOnce(hw, o.runs, o.addr, all, r, i, src);
    HeldOnHardware(hw, job, etcd);
    FloodCarriesOver(LayBlocks(hw, all), OnHardware(hw, etcd), ports, src, 2);
    PortsAreThere(hw, etcd, job, sh, services, o, r, i);
  }

  /** The pod interfaces of a rendered connection are there. */
  lemma PortsAreThere(hw: map<Key, KV>, etcd: map<Key, Body>, job: Job, sh: Common, services: seq<ServiceSpec>,
                      o: Outcome, r: nat, i: nat)
    requires JobRenders(job, sh, services, o) && EtcdHolds(job, etcd) && Within(o.runs, r, i)
    requires Hardware(hw) && EthernetIn(hw, o.runs[r].conns[i])
    requires Together(PartsOf(o.runs, o.addr), AllBlocks(job.order, job.plans))
    ensures forall p | p in o.runs[r].conns[i].Pods() :: Attached(OnHardware(hw, etcd), p.AsPort())
    ensures o.runs[r].conns[i].L2MP? ==>
              forall p | p in PortsOf(o.runs[r].conns[i].pods) :: Attached(OnHardware(hw, etcd), p)
  {
    var all := AllBlocks(job.order, job.plans);
    JobBlocks(job, sh, services, o);
    JobIsTyped(job);
    HeldOnHardware(hw, job, etcd);
    forall p | p in o.runs[r].conns[i].Pods() ensures Attached(OnHardware(hw, etcd), p.AsPort()) {
      PortsAttached(hw, o.runs, o.addr, all, r, i, p);
      AttachmentCarriesOver(LayBlocks(hw, all), OnHardware(hw, etcd), p.AsPort());
    }
    if o.runs[r].conns[i].L2MP? {
      forall p | p in PortsOf(o.runs[r].conns[i].pods) ensures Attached(OnHardware(hw, etcd), p) {
        PortIsOf(o.runs[r].conns[i].pods, p);
      }
    }
  }

  /**
   * Likewise a frame from an end of an L2PP connection arrives at the other end of that connection and nowhere else.
   */
  lemma WiresMatch(hw: map<Key, KV>, etcd: map<Key, Body>, job: Job, sh: Common, services: seq<ServiceSpec>,
                   o: Outcome, k: nat, i: nat, x: nat, dst: Port)
    requires SpecsFit(sh, services) && UsedOnce(services) && JobRenders(job, sh, services, o) && EtcdHolds(job, etcd)
    requires sh.kind.MeshOverlay? && k < |services| && Succeeds(job.plans[ServiceEntity(services[k].name)])
    requires i < |services[k].conns| && services[k].conns[i].L2PP? && x < 2
    requires Hardware(hw) && EthernetIn(hw, services[k].conns[i])
    ensures var c, cfg := services[k].conns[i], OnHardware(hw, etcd);
            && (Reaches(cfg, EndAt(c, x).AsPort(), dst) <==> dst == EndAt(c, 1 - x).AsPort())
            && Attached(cfg, EndAt(c, x).AsPort()) && Attached(cfg, EndAt(c, 1 - x).AsPort())
  {
    var r := RunOf(job, sh, services, o, k);
    var all, c := AllBlocks(job.order, job.plans), services[k].conns[i];
    ServicesAreApart(sh, services, o);
    JobBlocks(job, sh, services, o);
    RunsTogether(o.runs, o.addr, all);
    HardwareIsForeign(hw, PartAt(o.runs, o.addr, r, i));
    EveryWireReaches(hw, o.runs, o.addr, all, r, i, x, dst);
    HeldOnHardware(hw, job, etcd);
    ReachesCarriesOver(LayBlocks(hw, all), OnHardware(hw, etcd), EndAt(c, x).AsPort(), dst);
    PortsAreThere(hw, etcd, job, sh, services, o, r, i);
    assert EndAt(c, 0) in c.Pods() && EndAt(c, 1) in c.Pods();
  }

  lemma ReachesCarriesOver(c: Config, d: Config, src: Port, dst: Port)
    requires SameButDescriptions(c, d)
    ensures Reaches(c, src, dst) <==> Reaches(d, src, dst)
  {
    if t :| Arrives(c, t, src, dst) { ArrivalCarriesOver(c, d, t, src, dst); }
    if t :| Arrives(d, t, src, dst) { ArrivalCarriesOver(d, c, t, src, dst); }
  }

  /** A service over a hub and spoke, as it is rendered. */
  ghost function HubRunOf(sh: Common, service: ServiceSpec): Run
    requires sh.kind.HubOverlay?
  {
    Run(SharedBy(sh, service.name), seq(|service.conns|, _ => sh.kind.vni), service.conns)
  }

  /** Services over a hub and spoke whose bridges flood, and whose generated names tell them apart. */
  ghost predicate HubsFit(sh: Common, services: seq<ServiceSpec>)
  {
    && sh.kind.HubOverlay? && SpecsFit(sh, services) && UsedOnce(services)
    && (forall k | 0 <= k < |services| :: HubRun(HubRunOf(sh, services[k])))
    && forall k, l | 0 <= k < |services| && 0 <= l < |services| && k != l ::
         NamesTell(HubRunOf(sh, services[k]), HubRunOf(sh, services[l]))
  }

  lemma RunIsHubRun(sh: Common, services: seq<ServiceSpec>, o: Outcome, r: nat)
    requires HubsFit(sh, services) && IsOutcome(sh, services, o) && r < |o.runs|
    ensures o.whose[r] < |services| && o.runs[r] == HubRunOf(sh, services[o.whose[r]])
  {
    assert o.runs[r].used == HubRunOf(sh, services[o.whose[r]]).used;
  }

  lemma RunsAreHubRuns(sh: Common, services: seq<ServiceSpec>, o: Outcome)
    requires HubsFit(sh, services) && IsOutcome(sh, services, o)
    ensures HubRuns(o.runs, sh.kind.hub, sh.kind.vni)
  {
    forall s | 0 <= s < |o.runs|
      ensures o.whose[s] < |services| && o.runs[s] == HubRunOf(sh, services[o.whose[s]])
    {
      RunIsHubRun(sh, services, o, s);
    }
    forall s, t, i, j | 0 <= s < |o.runs| && 0 <= t < |o.runs| && s != t && 0 <= i < |o.runs[s].conns| &&
      0 <= j < |o.runs[t].conns|
      ensures PortsDiffer(o.runs[s].conns[i], o.runs[t].conns[j])
    {
      RunsUsedOnce(sh, services, o, s, i, t, j);
    }
    forall s, t | 0 <= s < |o.runs| && 0 <= t < |o.runs| && s != t ensures o.whose[s] != o.whose[t] {}
  }

  lemma HubsAreService(hw: map<Key, KV>, job: Job, sh: Common, services: seq<ServiceSpec>, o: Outcome)
    requires HubsFit(sh, services) && JobRenders(job, sh, services, o) && Hardware(hw)
    ensures HubRuns(o.runs, sh.kind.hub, sh.kind.vni)
    ensures HubService(hw, HubLayouts(o.runs, o.addr), AllBlocks(job.order, job.plans), sh.kind.hub, sh.kind.vni)
  {
    RunsAreHubRuns(sh, services, o);
    JobBlocks(job, sh, services, o);
    forall l | l in HubLayouts(o.runs, o.addr) && l.Valid() ensures Foreign(hw, l) {
      HardwareIsForeign(hw, Bridged(l));
    }
    HubServiceIsDone(hw, o.runs, o.addr, AllBlocks(job.order, job.plans), sh.kind.hub, sh.kind.vni);
  }

  /** The spokes of a rendered connection are the nodes of its pods. */
  lemma SpokesAre(job: Job, sh: Common, services: seq<ServiceSpec>, o: Outcome, s: nat, i: nat)
    requires HubsFit(sh, services) && JobRenders(job, sh, services, o) && Within(o.runs, s, i)
    ensures o.whose[s] < |services| && o.runs[s] == HubRunOf(sh, services[o.whose[s]])
    ensures var l := HubLayoutAt(o.runs[s], o.addr, i);
            Spokes(l, sh.kind.hub) == NodesOf(o.runs[s].conns[i].pods) && l.ports == PortsOf(o.runs[s].conns[i].pods)
  {
    RunIsHubRun(sh, services, o, s);
    RunsAreHubRuns(sh, services, o);
    HubPartAt(o.runs, o.addr, sh.kind.hub, sh.kind.vni, s, i);
  }

  /** Connections with no node in common, or with one and the same node and no other. */
  ghost predicate NodesApart(c: Connection, d: Connection)
    requires c.L2MP? && d.L2MP?
  {
    NodesOf(c.pods) !! NodesOf(d.pods) || exists n :: NodesOf(c.pods) == {n} == NodesOf(d.pods)
  }

  lemma SpokesApart(job: Job, sh: Common, services: seq<ServiceSpec>, o: Outcome, s: nat, i: nat, l: Layout)
    requires HubsFit(sh, services) && JobRenders(job, sh, services, o) && Within(o.runs, s, i)
    requires forall t, j | Within(o.runs, t, j) && (t, j) != (s, i) ::
               NodesOf(o.runs[s].conns[i].Pods()) !! NodesOf(o.runs[t].conns[j].Pods())
    requires HubRuns(o.runs, sh.kind.hub, sh.kind.vni) && l == HubLayoutAt(o.runs[s], o.addr, i)
    ensures forall k | k in HubLayouts(o.runs, o.addr) && k != l :: Spokes(l, sh.kind.hub) !! Spokes(k, sh.kind.hub)
  {
    SpokesAre(job, sh, services, o, s, i);
    forall k | k in HubLayouts(o.runs, o.addr) && k != l ensures Spokes(l, sh.kind.hub) !! Spokes(k, sh.kind.hub) {
      var t, j := HubLayoutFrom(o.runs, o.addr, sh.kind.hub, sh.kind.vni, k);
      SpokesAre(job, sh, services, o, t, j);
      assert o.runs[s].conns[i].Pods() == o.runs[s].conns[i].pods;
      assert o.runs[t].conns[j].Pods() == o.runs[t].conns[j].pods;
    }
  }

  /**
   * Over all layers, for any services over a hub and spoke: where etcd holds their job, a frame from a pod interface of
   * a rendered connection whose nodes no other rendered connection has, of whatever service, reaches the other
   * interfaces of that connection exactly once each, and nothing else, over at most three bridges.
   */
  lemma HubsFloodOnce(hw: map<Key, KV>, etcd: map<Key, Body>, job: Job, sh: Common, services: seq<ServiceSpec>,
                      o: Outcome, s: nat, i: nat, src: Port)
    requires HubsFit(sh, services) && JobRenders(job, sh, services, o) && EtcdHolds(job, etcd) && Within(o.runs, s, i)
    requires o.runs[s].conns[i].L2MP? && src in PortsOf(o.runs[s].conns[i].pods)
    requires forall t, j | Within(o.runs, t, j) && (t, j) != (s, i) ::
               NodesOf(o.runs[s].conns[i].Pods()) !! NodesOf(o.runs[t].conns[j].Pods())
    requires Hardware(hw) && EthernetIn(hw, o.runs[s].conns[i])
    ensures Serves(OnHardware(hw, etcd), PortsOf(o.runs[s].conns[i].pods), src, 3)
  {
    var all, hub, vni := AllBlocks(job.order, job.plans), sh.kind.hub, sh.kind.vni;
    HubsAreService(hw, job, sh, services, o);
    var l := HubLayoutAt(o.runs[s], o.addr, i);
    SpokesAre(job, sh, services, o, s, i);
    SpokesApart(job, sh, services, o, s, i, l);
    SeparateHubFloodsOnce(hw, HubLayouts(o.runs, o.addr), all, hub, vni, l, src);
    HeldOnHardware(hw, job, etcd);
    FloodCarriesOver(LayBlocks(hw, all), OnHardware(hw, etcd), PortsOf(o.runs[s].conns[i].pods), src, 3);
    SameParts(o.runs, o.addr, hub, vni);
    PortsAreThere(hw, etcd, job, sh, services, o, s, i);
  }

  lemma IsolationCarriesOver(c: Config, d: Config, l: Layout)
    requires SameButDescriptions(c, d)
    ensures Isolated(c, l) <==> Isolated(d, l)
  {
    forall t, src, dst ensures Delivers(c, t, src, dst) <==> Delivers(d, t, src, dst) {
      DeliveryCarriesOver(c, d, t, src, dst);
    }
  }

  lemma HubsDiffer(job: Job, sh: Common, services: seq<ServiceSpec>, o: Outcome, s: nat, i: nat, t: nat, j: nat)
    requires HubsFit(sh, services) && JobRenders(job, sh, services, o) && HubRuns(o.runs, sh.kind.hub, sh.kind.vni)
    requires Within(o.runs, s, i) && Within(o.runs, t, j) && (s, i) != (t, j)
    ensures HubLayoutAt(o.runs[s], o.addr, i) != HubLayoutAt(o.runs[t], o.addr, j)
    ensures NoLeak(HubLayoutAt(o.runs[s], o.addr, i), HubLayoutAt(o.runs[t], o.addr, j), sh.kind.hub)
            <==> NodesApart(o.runs[s].conns[i], o.runs[t].conns[j])
  {
    SpokesAre(job, sh, services, o, s, i);
    SpokesAre(job, sh, services, o, t, j);
    assert HubLayoutAt(o.runs[s], o.addr,
                       i).conn.index == i + 1 && HubLayoutAt(o.runs[t], o.addr, j).conn.index == j + 1;
  }

  /**
   * Over all layers, for any services over a hub and spoke: where etcd holds their job, a connection keeps its frames
   * to itself exactly if with every other connection of any of the services it has no node in common, or both have
   * just one and the same node.
   */
  lemma HubsIsolatedExactlyIf(hw: map<Key, KV>, etcd: map<Key, Body>, job: Job, sh: Common,
                              services: seq<ServiceSpec>, o: Outcome, s: nat, i: nat)
    requires HubsFit(sh, services) && JobRenders(job, sh, services, o) && EtcdHolds(job, etcd) && Within(o.runs, s, i)
    requires Hardware(hw)
    ensures HubRuns(o.runs, sh.kind.hub, sh.kind.vni)
    ensures Isolated(OnHardware(hw, etcd), HubLayoutAt(o.runs[s], o.addr, i)) <==>
              forall t, j | Within(o.runs, t, j) && (t, j) != (s, i) ::
                NodesApart(o.runs[s].conns[i], o.runs[t].conns[j])
  {
    var all, hub, vni := AllBlocks(job.order, job.plans), sh.kind.hub, sh.kind.vni;
    HubsAreService(hw, job, sh, services, o);
    var l := HubLayoutAt(o.runs[s], o.addr, i);
    assert l in HubLayouts(o.runs, o.addr);
    IsolatedExactlyIf(hw, HubLayouts(o.runs, o.addr), all, hub, vni, l);
    HeldOnHardware(hw, job, etcd);
    IsolationCarriesOver(LayBlocks(hw, all), OnHardware(hw, etcd), l);
    NoLeaksExactlyIf(job, sh, services, o, s, i);
  }

  lemma NoLeaksExactlyIf(job: Job, sh: Common, services: seq<ServiceSpec>, o: Outcome, s: nat, i: nat)
    requires HubsFit(sh, services) && JobRenders(job, sh, services, o) && HubRuns(o.runs, sh.kind.hub, sh.kind.vni)
    requires Within(o.runs, s, i)
    ensures var l := HubLayoutAt(o.runs[s], o.addr, i);
            (forall k | k in HubLayouts(o.runs, o.addr) && k != l :: NoLeak(l, k, sh.kind.hub)) <==>
              forall t, j | Within(o.runs, t, j) && (t, j) != (s, i) ::
                NodesApart(o.runs[s].conns[i], o.runs[t].conns[j])
  {
    var l, hub := HubLayoutAt(o.runs[s], o.addr, i), sh.kind.hub;
    forall t, j | Within(o.runs, t, j) && (t, j) != (s, i)
      ensures var k := HubLayoutAt(o.runs[t], o.addr, j);
              && k in HubLayouts(o.runs, o.addr) && k != l
              && (NoLeak(l, k, hub) <==> NodesApart(o.runs[s].conns[i], o.runs[t].conns[j]))
    {
      HubsDiffer(job, sh, services, o, s, i, t, j);
    }
    forall k | k in HubLayouts(o.runs, o.addr) && k != l
      ensures exists t, j :: Within(o.runs, t, j) && (t, j) != (s, i) && k == HubLayoutAt(o.runs[t], o.addr, j)
    {
      var t, j := HubLayoutFrom(o.runs, o.addr, hub, sh.kind.vni, k);
    }
  }

  /** Renders a whole configuration: first all nodes, then all services. */
  method RenderAll(book: AddressBook, vnis: Vnis.VniAllocator?, nodes: seq<Node>, sh: Common,
                   services: seq<ServiceSpec>)
    returns (nodeSteps: seq<seq<Step>>, steps: seq<seq<Step>>, ghost o: Outcome)
    requires book.Valid() && (book.usePool || DistinctAddresses(book.fixed)) && (vnis != null ==> vnis.Valid())
    requires NodesFit(nodes) && SpecsFit(sh, services) && UsedOnce(services)
    modifies book, book.pool, if vnis == null then {} else {vnis.bm.words}
    ensures book.Valid() && o.steps == steps && WholeFits(nodes, nodeSteps, sh, services, o)
    ensures |o.runs| == |services| <==>
              && AllCanRender(sh, services, |services|, old(Vnis.FreeOf(vnis)))
              && Enough(old(book.Balance()), AllEnds(sh, services, |services|))
    ensures Separate(sh, services, |services|, old(Vnis.FreeOf(vnis)), old(book.Balance()), o.whose)
  {
    nodeSteps := RenderNodes(nodes);
    var runs, whose;
    steps, runs, whose := RenderServices(book, vnis, sh, services);
    o := Outcome(book.Assigned(), steps, runs, whose, Vnis.NumbersOf(vnis));
    assert RunsDone(runs, book.Assigned());
  }

  /** After the commit of the job the mesh connections flood exactly once. */
  lemma DeployedMeshesFloodOnce(hw: map<Key, KV>, s: State, job: Job, sh: Common, services: seq<ServiceSpec>,
                                o: Outcome, k: nat, i: nat, src: Port)
    requires Agree(s) && Keyed(s.cache) && SpecsFit(sh, services) && UsedOnce(services)
    requires JobRenders(job, sh, services, o) && sh.kind.MeshOverlay?
    requires k < |services| && Succeeds(job.plans[ServiceEntity(services[k].name)]) && i < |services[k].conns|
    requires var c := services[k].conns[i]; c.L2MP? && c.parms.flood && src in PortsOf(c.pods)
    requires Hardware(hw) && EthernetIn(hw, services[k].conns[i])
    ensures Serves(OnHardware(hw, Committed(s, job.Result()).etcd), PortsOf(services[k].conns[i].pods), src, 2)
  {
    CommittedHolds(s, job);
    MeshesFloodOnce(hw, Committed(s, job.Result()).etcd, job, sh, services, o, k, i, src);
  }

  /** After the commit of the job the ends of L2PP connections are matched. */
  lemma DeployedWiresMatch(hw: map<Key, KV>, s: State, job: Job, sh: Common, services: seq<ServiceSpec>, o: Outcome,
                           k: nat, i: nat, x: nat, dst: Port)
    requires Agree(s) && Keyed(s.cache) && SpecsFit(sh, services) && UsedOnce(services)
    requires JobRenders(job, sh, services, o) && sh.kind.MeshOverlay?
    requires k < |services| && Succeeds(job.plans[ServiceEntity(services[k].name)]) && i < |services[k].conns|
    requires services[k].conns[i].L2PP? && x < 2 && Hardware(hw) && EthernetIn(hw, services[k].conns[i])
    ensures var c, cfg := services[k].conns[i], OnHardware(hw, Committed(s, job.Result()).etcd);
            && (Reaches(cfg, EndAt(c, x).AsPort(), dst) <==> dst == EndAt(c, 1 - x).AsPort())
            && Attached(cfg, EndAt(c, x).AsPort()) && Attached(cfg, EndAt(c, 1 - x).AsPort())
  {
    CommittedHolds(s, job);
    WiresMatch(hw, Committed(s, job.Result()).etcd, job, sh, services, o, k, i, x, dst);
  }

  /** After the commit of the job the hub-and-spoke connections that share no node flood exactly once. */
  lemma DeployedHubsFloodOnce(hw: map<Key, KV>, st: State, job: Job, sh: Common, services: seq<ServiceSpec>,
                              o: Outcome, s: nat, i: nat, src: Port)
    requires Agree(st) && Keyed(st.cache) && HubsFit(sh, services) && JobRenders(job, sh, services, o)
    requires Within(o.runs, s, i) && o.runs[s].conns[i].L2MP? && src in PortsOf(o.runs[s].conns[i].pods)
    requires forall t, j | Within(o.runs, t, j) && (t, j) != (s, i) ::
               NodesOf(o.runs[s].conns[i].Pods()) !! NodesOf(o.runs[t].conns[j].Pods())
    requires Hardware(hw) && EthernetIn(hw, o.runs[s].conns[i])
    ensures Serves(OnHardware(hw, Committed(st, job.Result()).etcd), PortsOf(o.runs[s].conns[i].pods), src, 3)
  {
    CommittedHolds(st, job);
    HubsFloodOnce(hw, Committed(st, job.Result()).etcd, job, sh, services, o, s, i, src);
  }
}
