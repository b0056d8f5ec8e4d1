/** The loop that processes configuration changes and renders, plugins/controller/model_mgrs.go. */
module MessageLoop {
  import opened Entries
  import opened Commit
  import opened RenderTxn
  import opened Entities
  import opened PodMap

  /**
   * The messages of the operational channel. A create or update of a node or service leaves a new configuration C and
   * an entity without a status, unless it is a node whose configuration is not valid; a delete also removes what the
   * entity has recorded. Creates, updates and deletes of pools, overlays and system parameters change the
   * configuration only.
   */
  datatype Message<C> =
    | Render
    | EnableRenderer
    | DisableRenderer
    | Configure(config: C)
    | Update(name: string, service: bool, valid: bool, config: C)
    | Place(placement: Placement)
    | Remove(name: string, config: C)
    | Unplace(pod: string)
    | Resync(discovered: Placements)

  /**
   * What the messages determine: the renderer's switch, the configuration with the names of its entities and of those
   * that have no status, and the pod placements.
   */
  datatype Setup<C> = Setup(enabled: bool, config: C, configured: Placements, effective: Placements,
                            names: set<string>, bare: set<string>)

  function Receive<C>(s: Setup<C>, m: Message<C>): Setup<C>
  {
    match m
    case Render => s
    case EnableRenderer => s.(enabled := true)
    case DisableRenderer => s.(enabled := false)
    case Configure(c) => s.(config := c)
    case Update(n, _, valid, c) =>
      s.(config := c, names := s.names + {n}, bare := if valid then s.bare + {n} else s.bare - {n})
    case Place(p) => s.(configured := s.configured[p.pod := p], effective := s.effective[p.pod := p])
    case Remove(n, c) => s.(config := c, names := s.names - {n}, bare := s.bare - {n})
    case Unplace(pod) => s.(configured := s.configured - {pod})
    case Resync(discovered) => s.(effective := s.configured + discovered)
  }

  /** Messages after which rendering is pending; a resync counts only if it changed a placement. */
  predicate AsksToRender<C>(s: Setup<C>, m: Message<C>)
  {
    match m
    case EnableRenderer => false
    case DisableRenderer => false
    case Resync(discovered) => s.configured + discovered != s.effective
    case _ => true
  }

  /**
   * Messages that end the process by following a status that is not there: the status message of a service that is not
   * valid, and the deletion of an entity that was not rendered since it was updated.
   */
  predicate Fatal<C>(s: Setup<C>, m: Message<C>)
  {
    (m.Update? && m.service && !m.valid) || (m.Remove? && m.name in s.names && m.name in s.bare)
  }

  /** What the renderers do with a configuration and placements on a given occasion. */
  type Renderer<!C> = (C, Placements, nat) -> Job

  /** The setup, and whether rendering is pending. */
  datatype Control<C> = Control(setup: Setup<C>, pending: bool)

  /** The entities that have a status after a rendering. */
  ghost function Rendered(job: Job): set<string> { set n | n in job.order && n in job.plans && job.plans[n].valid }

  /** One turn of the loop: a message is applied, and if rendering is pending and enabled, it is done. */
  ghost function Advance<C>(c: Control<C>, m: Message<C>, n: nat, render: Renderer<C>): Control<C>
  {
    var s, p := Receive(c.setup, m), c.pending || AsksToRender(c.setup, m);
    if s.enabled && p then Control(s.(bare := s.bare - Rendered(render(s.config, s.effective, n))), false)
    else Control(s, p)
  }

  ghost function History<C>(c: Control<C>, ms: seq<Message<C>>, render: Renderer<C>): Control<C>
    decreases ms
  {
    if ms == [] then c else Advance(History(c, ms[..|ms| - 1], render), ms[|ms| - 1], |ms| - 1, render)
  }

  /** No message of the sequence ends the process. */
  ghost predicate Survives<C(!new)>(c: Control<C>, ms: seq<Message<C>>, render: Renderer<C>)
    decreases ms
  {
    ms == [] || (Survives(c, ms[..|ms| - 1], render) && !Fatal(History(c, ms[..|ms| - 1], render).setup, ms[|ms| - 1]))
  }

  lemma {:induction false} SurvivesPrefix<C(!new)>(c: Control<C>, ms: seq<Message<C>>, i: nat, render: Renderer<C>)
    requires Survives(c, ms, render) && i <= |ms|
    ensures Survives(c, ms[..i], render)
    decreases |ms| - i
  {
    if i == |ms| {
      assert ms[..i] == ms;
    } else {
      SurvivesPrefix(c, ms, i + 1, render);
      assert ms[..i + 1][..i] == ms[..i];
    }
  }

  lemma HistoryStep<C(!new)>(c: Control<C>, ms: seq<Message<C>>, i: nat, render: Renderer<C>)
    requires i < |ms|
    ensures History(c, ms[..i + 1], render) == Advance(History(c, ms[..i], render), ms[i], i, render)
    ensures Survives(c, ms[..i + 1], render) <==>
              Survives(c, ms[..i], render) && !Fatal(History(c, ms[..i], render).setup, ms[i])
  {
    assert ms[..i + 1][..i] == ms[..i];
  }

  /** Cache, etcd and records are those of a rendering of a configuration and placements. */
  ghost predicate IsSynced<C(!new)>(render: Renderer<C>, v: State, config: C, placed: Placements,
                                    status: map<string, Status>)
    requires forall c, p, n :: render(c, p, n).Valid()
  {
    exists n: nat :: InSync(v, render(config, placed, n), status)
  }

  /**
   * The statuses after a message: an update or a deletion takes the entity's away, unless an updated node is not valid.
   */
  function Noted<C>(status: map<string, Status>, names: set<string>, m: Message<C>): map<string, Status>
  {
    match m
    case Update(n, _, valid, _) => if valid then status - {n} else status[n := Status(map[], ["not valid"], false)]
    case Remove(n, _) => if n in names then status - {n} else status
    case _ => status
  }

  /** The statuses after a rendering. */
  ghost function WithRendered(status: map<string, Status>, job: Job): map<string, Status>
  {
    map n | n in status.Keys + Rendered(job) :: if n in Rendered(job) then NewStatus(job.plans[n]) else status[n]
  }

  lemma StatusesAre(status: map<string, Status>, job: Job)
    requires job.Valid()
    ensures StatusesAfter(job.order, job.plans, status) == WithRendered(status, job)
  {
    StatusKeys(job.order, job.plans, status);
    forall n | n in WithRendered(status, job)
      ensures StatusesAfter(job.order, job.plans, status)[n] == WithRendered(status, job)[n]
    {
      StatusesAreSeparate(job.order, job.plans, status, n);
    }
  }

  /** What a turn of the loop leaves of the statuses. */
  ghost function StatusStep<C>(c: Control<C>, status: map<string, Status>, m: Message<C>, n: nat,
                               render: Renderer<C>): map<string, Status>
  {
    var s, noted := Receive(c.setup, m), Noted(status, c.setup.names, m);
    if Renders(c, m) then WithRendered(noted, render(s.config, s.effective, n)) else noted
  }

  ghost function StatusHistory<C>(c: Control<C>, status: map<string, Status>, ms: seq<Message<C>>,
                                  render: Renderer<C>): map<string, Status>
    decreases ms
  {
    if ms == [] then status else
      var init := ms[..|ms| - 1];
      StatusStep(History(c, init, render), StatusHistory(c, status, init, render), ms[|ms| - 1], |init|, render)
  }

  /** How the puts of a turn went: all succeeded, or the commit stopped when some had landed. */
  datatype Puts = Puts(written: bool, landed: set<Key>)

  ghost predicate AllWritten(puts: seq<Puts>) { forall p | p in puts :: p.written }

  /** The keys that a message deletes: those that the entity has recorded. */
  ghost function KeysGone<C>(status: map<string, Status>, names: set<string>, m: Message<C>): set<Key>
  {
    if m.Remove? && m.name in names then RecordedOf(status, m.name).Keys else {}
  }

  /** What a turn of the loop does to the cache and to etcd: a deletion, and a commit if it renders. */
  ghost function TurnEvents<C(!new)>(c: Control<C>, status: map<string, Status>, m: Message<C>, n: nat,
                                     render: Renderer<C>, puts: Puts): seq<Event>
    requires forall c, p, n :: render(c, p, n).Valid()
  {
    var s := Receive(c.setup, m);
    [Event.Remove(KeysGone(status, c.setup.names, m))]
    + if Renders(c, m) then [Ending(render(s.config, s.effective, n).Result(), puts.written, puts.landed)] else []
  }

  /** Everything that a turn changes: the control, the statuses, and the cache with etcd. */
  datatype Machine<C> = Machine(control: Control<C>, status: map<string, Status>, v: State)

  /** The first half of a turn, which applies the message. */
  ghost function Handled<C>(x: Machine<C>, m: Message<C>): Machine<C>
  {
    Machine(Control(Receive(x.control.setup, m), x.control.pending || AsksToRender(x.control.setup, m)),
            Noted(x.status, x.control.setup.names, m),
            Apply(x.v, Event.Remove(KeysGone(x.status, x.control.setup.names, m))))
  }

  /** The second half, which renders if rendering is pending and enabled. */
  ghost function Done<C(!new)>(x: Machine<C>, n: nat, render: Renderer<C>, puts: Puts): Machine<C>
    requires forall c, p, n :: render(c, p, n).Valid()
  {
    var s := x.control.setup;
    var job := render(s.config, s.effective, n);
    if s.enabled && x.control.pending
    then Machine(Control(s.(bare := s.bare - Rendered(job)), false), WithRendered(x.status, job),
                 Apply(x.v, Ending(job.Result(), puts.written, puts.landed)))
    else x
  }

  /** The second half of a turn is done; if it has written what it rendered, the loop is in sync. */
  ghost predicate Ended<C(!new)>(x: Machine<C>, n: nat, render: Renderer<C>, puts: Puts, y: Machine<C>)
    requires forall c, p, n :: render(c, p, n).Valid()
  {
    && y == Done(x, n, render, puts)
    && (x.control.setup.enabled && x.control.pending ==> CommitPossible(x, n, render, puts))
    && (x.control.setup.enabled && x.control.pending && puts.written && Agree(x.v) ==> SyncedAt(render, y))
  }

  lemma TurnEnds<C(!new)>(x: Machine<C>, m: Message<C>, n: nat, render: Renderer<C>, puts: Puts, y: Machine<C>)
    requires (forall c, p, n :: render(c, p, n).Valid()) && Ended(Handled(x, m), n, render, puts, y)
    ensures Turned(x, m, n, render, puts, y)
    ensures puts.written && Agree(x.v) && (x.control.pending || AsksToRender(x.control.setup, m) || SyncedAt(render, x))
            ==> y.control.pending || SyncedAt(render, y)
  {
    HandledAgrees(x, m);
  }

  /** The two halves make up a turn. */
  ghost predicate Turned<C(!new)>(x: Machine<C>, m: Message<C>, n: nat, render: Renderer<C>, puts: Puts, y: Machine<C>)
    requires forall c, p, n :: render(c, p, n).Valid()
  {
    && y == Done(Handled(x, m), n, render, puts)
    && (Renders(x.control, m) ==> CommitPossible(Handled(x, m), n, render, puts))
  }

  lemma TurnIs<C(!new)>(x: Machine<C>, m: Message<C>, n: nat, render: Renderer<C>, puts: Puts, y: Machine<C>)
    requires (forall c, p, n :: render(c, p, n).Valid()) && Turned(x, m, n, render, puts, y)
    ensures y.control == Advance(x.control, m, n, render) && y.status == StatusStep(x.control, x.status, m, n, render)
    ensures var es := TurnEvents(x.control, x.status, m, n, render, puts); y.v == Run(x.v, es) && AllPossible(x.v, es)
  {
    var s, gone := Receive(x.control.setup, m), Event.Remove(KeysGone(x.status, x.control.setup.names, m));
    if Renders(x.control, m) {
      RunTwo(x.v, gone, Ending(render(s.config, s.effective, n).Result(), puts.written, puts.landed));
    } else {
      assert TurnEvents(x.control, x.status, m, n, render, puts) == [gone];
      RunOne(x.v, gone);
    }
  }

  /** A message keeps the agreement of cache and etcd; one that asks for no rendering leaves all else as it is. */
  lemma HandledAgrees<C>(x: Machine<C>, m: Message<C>)
    ensures Agree(x.v) ==> Agree(Handled(x, m).v)
    ensures !AsksToRender(x.control.setup, m) ==>
              var y := Handled(x, m);
              && y.control.setup.config == x.control.setup.config
              && y.control.setup.effective == x.control.setup.effective && y.status == x.status && y.v == x.v
  {
    RemoveKeepsAgreement(x.v, KeysGone(x.status, x.control.setup.names, m));
    RemoveNone(x.v);
  }

  ghost predicate CommitPossible<C(!new)>(x: Machine<C>, n: nat, render: Renderer<C>, puts: Puts)
    requires forall c, p, n :: render(c, p, n).Valid()
  {
    var s := x.control.setup;
    Possible(x.v, Ending(render(s.config, s.effective, n).Result(), puts.written, puts.landed))
  }

  ghost predicate SyncedAt<C(!new)>(render: Renderer<C>, x: Machine<C>)
    requires forall c, p, n :: render(c, p, n).Valid()
  {
    IsSynced(render, x.v, x.control.setup.config, x.control.setup.effective, x.status)
  }

  ghost function Events<C(!new)>(c: Control<C>, status: map<string, Status>, ms: seq<Message<C>>, render: Renderer<C>,
                                 puts: seq<Puts>): seq<Event>
    requires |puts| == |ms| && forall c, p, n :: render(c, p, n).Valid()
    decreases ms
  {
    if ms == [] then [] else
      var init, n := ms[..|ms| - 1], |ms| - 1;
      Events(c, status, init, render, puts[..n])
      + TurnEvents(History(c, init, render), StatusHistory(c, status, init, render), ms[n], n, render, puts[n])
  }

  lemma {:induction false} StatusKeys(order: seq<string>, plans: map<string, Plan>, status: map<string, Status>)
    requires forall n | n in order :: n in plans
    ensures StatusesAfter(order, plans, status).Keys == status.Keys + Rendered(Job(order, plans))
    decreases order
  {
    if order != [] {
      var init, last := order[..|order| - 1], order[|order| - 1];
      StatusKeys(init, plans, status);
      assert forall n :: n in order <==> n in init || n == last;
    }
  }

  class Loop<C(!new)> {
    var config: C

    /** The names of the nodes and services in the configuration. */
    var names: set<string>
    const pods: PlacementManager
    const entities: EntityManager
    const txn: Transactor

    constructor (config: C, names: set<string>, pods: PlacementManager, entities: EntityManager, txn: Transactor)
      ensures this.config == config && this.names == names
      ensures this.pods == pods && this.entities == entities && this.txn == txn
    {
      this.config, this.names, this.pods, this.entities, this.txn := config, names, pods, entities, txn;
    }

    ghost function Current(enabled: bool): Setup<C>
      reads this, pods, entities
    {
      Setup(enabled, config, pods.configured, pods.effective, names, names - entities.status.Keys)
    }

    /** The loop as a whole. */
    ghost function Snapshot(enabled: bool, pending: bool): Machine<C>
      reads this, pods, entities, txn
    {
      Machine(Control(Current(enabled), pending), entities.status, txn.Value())
    }

    ghost predicate Valid()
      reads this, pods, entities, txn
    {
      pods.Valid() && Keyed(txn.vppEntries) && AllTyped(entities.status)
    }

    /** Cache, etcd and records are those of a rendering of the current configuration. */
    ghost predicate Synced(render: Renderer<C>)
      requires forall c, p, n :: render(c, p, n).Valid()
      reads this, pods, entities, txn
    {
      IsSynced(render, txn.Value(), config, pods.effective, entities.status)
    }

    /** Creates or updates an entity. */
    method HandleUpdate(name: string, service: bool, valid: bool, c: C, ghost enabled: bool) returns (crashed: bool)
      requires Valid()
      modifies this, entities
      ensures Valid() && crashed == (service && !valid)
      ensures !crashed ==> Current(enabled) == Receive(old(Current(enabled)), Update(name, service, valid, c))
      ensures !crashed ==> entities.status == Noted(old(entities.status), old(names), Update(name, service, valid, c))
      ensures crashed ==> config == old(config) && names == old(names) && entities.status == old(entities.status)
    {
      if service && !valid { return true; }
      if valid {
        entities.status := entities.status - {name};
      } else {
        entities.status := entities.status[name := Status(map[], ["not valid"], false)];
      }
      config, names := c, names + {name};
      return false;
    }

    /** Deletes an entity with what it has recorded; one that is not known is left alone. */
    method HandleRemove(name: string, c: C, ghost enabled: bool) returns (crashed: bool)
      requires Valid()
      modifies this, entities, txn
      ensures Valid() && crashed == (name in old(names) && name !in old(entities.status))
      ensures !crashed ==> Current(enabled) == Receive(old(Current(enabled)), Message.Remove(name, c))
      ensures !crashed ==> entities.status == Noted(old(entities.status), old(names), Message.Remove(name, c))
      ensures !crashed ==>
                var gone := KeysGone(old(entities.status), old(names), Message.Remove(name, c));
                txn.Value() == Apply(old(txn.Value()), Event.Remove(gone))
      ensures txn.failures == old(txn.failures)
      ensures crashed ==> config == old(config) && names == old(names)
      ensures crashed ==> entities.status == old(entities.status) && txn.Value() == old(txn.Value())
    {
      if name in names {
        if name !in entities.status { return true; }
        txn.DeleteRendered(entities.status[name].recorded);
        entities.status := entities.status - {name};
      } else {
        RemoveNone(txn.Value());
      }
      config, names := c, names - {name};
      return false;
    }

    /** Applies one message to the configuration; tells whether rendering is now pending, or the process has ended. */
    method Handle(msg: Message<C>, enabled0: bool, pending0: bool) returns (enabled: bool, pending: bool, crashed: bool)
      requires Valid() && (msg.Resync? ==> ByPod(msg.discovered))
      modifies this, pods, entities, txn
      ensures Valid() && crashed == Fatal(old(Current(enabled0)), msg)
      ensures !crashed ==> Snapshot(enabled, pending) == Handled(old(Snapshot(enabled0, pending0)), msg)
      ensures txn.failures == old(txn.failures)
      ensures crashed ==> Snapshot(enabled, pending) == old(Snapshot(enabled0, pending0))
    {
      enabled, pending, crashed := enabled0, pending0, false;
      if !msg.Remove? { RemoveNone(txn.Value()); }
      match msg {
        case Render => pending := true;
        case DisableRenderer => enabled := false;
        case EnableRenderer => enabled := true;
        case Configure(c) =>
          config := c;
          pending := true;
        case Update(name, service, valid, c) =>
          crashed := HandleUpdate(name, service, valid, c, enabled);
          pending := pending || !crashed;
        case Place(p) =>
          pods.Place(p);
          pending := true;
        case Remove(name, c) =>
          crashed := HandleRemove(name, c, enabled);
          pending := pending || !crashed;
        case Unplace(pod) =>
          pods.Unplace(pod);
          pending := true;
        case Resync(discovered) =>
          var required := pods.Sync(discovered);
          if required { pending := true; }
      }
    }

    /** Renders the current configuration in one transaction. */
    method RenderAndCommit(render: Renderer<C>, n: nat) returns (written: bool, ghost landed: set<Key>)
      requires Valid() && forall c, p, i :: render(c, p, i).Valid()
      modifies entities, txn
      ensures Valid() && txn.failures == old(txn.failures) + if written then 0 else 1
      ensures entities.status == WithRendered(old(entities.status), render(config, pods.effective, n))
      ensures var e := Ending(render(config, pods.effective, n).Result(), written, landed);
              txn.Value() == Apply(old(txn.Value()), e) && Possible(old(txn.Value()), e)
      ensures written && Agree(old(txn.Value())) ==> Synced(render)
    {
      ghost var s, before := txn.Value(), entities.status;
      var job := render(config, pods.effective, n);
      written, landed := entities.RenderTransaction(txn, job);
      StatusesAre(before, job);
      if written && Agree(s) {
        ReloadRebuildsCache(s, job, before);
      }
    }

    /** The second half of a turn. */
    method RenderIfPending(render: Renderer<C>, n: nat, enabled: bool, pending0: bool)
      returns (pending: bool, written: bool, ghost landed: set<Key>)
      requires Valid() && forall c, p, i :: render(c, p, i).Valid()
      modifies entities, txn
      ensures Valid() && txn.failures == old(txn.failures) + if written then 0 else 1
      ensures Ended(old(Snapshot(enabled, pending0)), n, render, Puts(written, landed), Snapshot(enabled, pending))
    {
      pending, written, landed := pending0, true, {};
      if enabled && pending {
        written, landed := RenderAndCommit(render, n);
        pending := false;
      }
    }

    /** One turn of the loop. */
    method Turn(msg: Message<C>, render: Renderer<C>, n: nat, enabled0: bool, pending0: bool)
      returns (enabled: bool, pending: bool, crashed: bool, written: bool, ghost landed: set<Key>)
      requires Valid() && (msg.Resync? ==> ByPod(msg.discovered)) && forall c, p, i :: render(c, p, i).Valid()
      modifies this, pods, entities, txn
      ensures Valid() && crashed == Fatal(old(Current(enabled0)), msg)
      ensures !crashed ==>
                Turned(old(Snapshot(enabled0, pending0)), msg, n, render, Puts(written, landed),
                       Snapshot(enabled, pending))
      ensures crashed ==> written && Snapshot(enabled, pending) == old(Snapshot(enabled0, pending0))
      ensures txn.failures == old(txn.failures) + if written then 0 else 1
      ensures !crashed && written && Agree(old(txn.Value())) &&
              (pending0 || AsksToRender(old(Current(enabled0)), msg) ||
               SyncedAt(render, old(Snapshot(enabled0, pending0)))) ==>
                pending || SyncedAt(render, Snapshot(enabled, pending))
    {
      written, landed := true, {};
      ghost var x := Snapshot(enabled0, pending0);
      enabled, pending, crashed := Handle(msg, enabled0, pending0);
      if !crashed {
        pending, written, landed := RenderIfPending(render, n, enabled, pending);
        TurnEnds(x, msg, n, render, Puts(written, landed), Snapshot(enabled, pending));
      }
    }

    /**
     * Processes any sequence of messages. The process ends early exactly if the sequence has a fatal message. At the
     * head of the loop nothing is pending while rendering is enabled; and if all puts succeeded, a configuration that
     * was asked to be rendered and is not pending is in etcd: no change made while rendering was disabled is lost.
     * Whatever puts failed, cache and etcd differ exactly where one landed that is stale.
     */
    method ProcessOperationalMessages(msgs: seq<Message<C>>, render: Renderer<C>)
      returns (enabled: bool, pending: bool, allWritten: bool, crashed: bool, ghost puts: seq<Puts>)
      requires Valid() && Agree(txn.Value())
      requires forall c, p, n :: render(c, p, n).Valid()
      requires forall m | m in msgs && m.Resync? :: ByPod(m.discovered)
      modifies this, pods, entities, txn
      ensures Valid() && (crashed <==> !Survives(old(Control(Current(false), false)), msgs, render))
      ensures |puts| <= |msgs| && (crashed <==> |puts| < |msgs|)
      ensures Did(old(Snapshot(false, false)), msgs[..|puts|], render, puts, Snapshot(enabled, pending))
      ensures enabled ==> !pending
      ensures allWritten <==> txn.failures == old(txn.failures)
      ensures allWritten <==> AllWritten(puts)
      ensures allWritten ==> Agree(txn.Value())
      ensures !crashed && allWritten && !pending && (exists m | m in msgs :: m.Render?) ==> Synced(render)
      ensures StaleOnly(old(Snapshot(false, false)), msgs[..|puts|], render, puts, txn.Value())
    {
      enabled, pending, allWritten, crashed, puts := false, false, true, false, [];
      ghost var x, failures := Snapshot(false, false), txn.failures;
      for i := 0 to |msgs|
        invariant Valid() && |puts| == i && AtHead(x, msgs, render, puts, Snapshot(enabled, pending), allWritten)
        invariant txn.failures >= failures && (allWritten <==> txn.failures == failures)
      {
        enabled, pending, allWritten, crashed, puts :=
          ProcessNext(msgs, i, render, enabled, pending, allWritten, puts, x);
        if crashed { break; }
      }
      assert crashed || msgs[..|msgs|] == msgs;
      DifferWhereStale(x, msgs[..|puts|], render, puts);
      if allWritten { AgreesIfWritten(x, msgs[..|puts|], render, puts); }
    }

    /** Processes the next message, unless it ends the process. */
    method ProcessNext(msgs: seq<Message<C>>, i: nat, render: Renderer<C>, enabled0: bool, pending0: bool,
                       allWritten0: bool, ghost puts0: seq<Puts>, ghost x: Machine<C>)
      returns (enabled: bool, pending: bool, allWritten: bool, crashed: bool, ghost puts: seq<Puts>)
      requires Valid() && Agree(x.v) && Keyed(x.v.cache) && forall c, p, n :: render(c, p, n).Valid()
      requires i < |msgs| && |puts0| == i && (msgs[i].Resync? ==> ByPod(msgs[i].discovered))
      requires AtHead(x, msgs, render, puts0, Snapshot(enabled0, pending0), allWritten0)
      modifies this, pods, entities, txn
      ensures Valid() && AtHead(x, msgs, render, puts, Snapshot(enabled, pending), allWritten)
      ensures |puts| == (if crashed then i else i + 1) && (crashed ==> !Survives(x.control, msgs, render))
      ensures txn.failures >= old(txn.failures)
      ensures allWritten <==> allWritten0 && txn.failures == old(txn.failures)
    {
      ghost var y := Snapshot(enabled0, pending0);
      if allWritten0 { AgreesIfWritten(x, msgs[..i], render, puts0); }
      var written;
      ghost var landed;
      enabled, pending, crashed, written, landed := Turn(msgs[i], render, i, enabled0, pending0);
      allWritten, puts := allWritten0, puts0;
      if crashed {
        NotSurvived(x, msgs, i, render, y);
      } else {
        NextHead(x, msgs, i, render, puts, y, allWritten, Puts(written, landed), Snapshot(enabled, pending));
        allWritten, puts := allWritten && written, puts + [Puts(written, landed)];
      }
    }
  }

  /** What holds at the head of the loop, after as many messages as there are outcomes of puts. */
  ghost predicate AtHead<C(!new)>(x: Machine<C>, msgs: seq<Message<C>>, render: Renderer<C>, puts: seq<Puts>,
                                  y: Machine<C>, allWritten: bool)
    requires forall c, p, n :: render(c, p, n).Valid()
  {
    && |puts| <= |msgs| && Did(x, msgs[..|puts|], render, puts, y) && (y.control.setup.enabled ==> !y.control.pending)
    && (allWritten <==> AllWritten(puts))
    && (allWritten && !y.control.pending && Asked(msgs, |puts|) ==> SyncedAt(render, y))
    && Survives(x.control, msgs[..|puts|], render)
  }

  lemma NextHead<C(!new)>(x: Machine<C>, msgs: seq<Message<C>>, i: nat, render: Renderer<C>, puts: seq<Puts>,
                          y: Machine<C>, allWritten: bool, put: Puts, z: Machine<C>)
    requires (forall c, p, n :: render(c, p, n).Valid()) && i < |msgs| && |puts| == i
    requires AtHead(x, msgs, render, puts, y, allWritten) && Turned(y, msgs[i], i, render, put, z)
    requires !Fatal(y.control.setup, msgs[i])
    requires put.written && allWritten &&
             (y.control.pending || AsksToRender(y.control.setup, msgs[i]) || SyncedAt(render, y))
             ==> z.control.pending || SyncedAt(render, z)
    ensures AtHead(x, msgs, render, puts + [put], z, allWritten && put.written)
  {
    HistoryStep(x.control, msgs, i, render);
    AskedStep(msgs, i);
    DidStep(x, msgs, i, render, puts, y, put, z);
  }

  lemma NotSurvived<C(!new)>(x: Machine<C>, msgs: seq<Message<C>>, i: nat, render: Renderer<C>, y: Machine<C>)
    requires i < |msgs| && y.control == History(x.control, msgs[..i], render) && Fatal(y.control.setup, msgs[i])
    ensures !Survives(x.control, msgs, render)
  {
    HistoryStep(x.control, msgs, i, render);
    if Survives(x.control, msgs, render) { SurvivesPrefix(x.control, msgs, i + 1, render); }
  }

  /** Messages have made of one machine what their history says. */
  ghost predicate Did<C(!new)>(x: Machine<C>, ms: seq<Message<C>>, render: Renderer<C>, puts: seq<Puts>, y: Machine<C>)
    requires forall c, p, n :: render(c, p, n).Valid()
  {
    && |puts| == |ms| && y.control == History(x.control, ms, render)
    && y.status == StatusHistory(x.control, x.status, ms, render)
    && var es := Events(x.control, x.status, ms, render, puts);
    y.v == Run(x.v, es) && AllPossible(x.v, es)
  }

  lemma EventsStep<C(!new)>(c: Control<C>, status: map<string, Status>, ms: seq<Message<C>>, i: nat,
                            render: Renderer<C>, puts: seq<Puts>, put: Puts)
    requires (forall c, p, n :: render(c, p, n).Valid()) && i < |ms| && |puts| == i
    ensures var h, st := History(c, ms[..i], render), StatusHistory(c, status, ms[..i], render);
            && History(c, ms[..i + 1], render) == Advance(h, ms[i], i, render)
            && StatusHistory(c, status, ms[..i + 1], render) == StatusStep(h, st, ms[i], i, render)
            && Events(c, status, ms[..i + 1], render, puts + [put])
               == Events(c, status, ms[..i], render, puts) + TurnEvents(h, st, ms[i], i, render, put)
  {
    assert ms[..i + 1][..i] == ms[..i] && (puts + [put])[..i] == puts;
  }

  lemma DidStep<C(!new)>(x: Machine<C>, ms: seq<Message<C>>, i: nat, render: Renderer<C>, puts: seq<Puts>,
                         y: Machine<C>, put: Puts, z: Machine<C>)
    requires (forall c, p, n :: render(c, p, n).Valid()) && i < |ms|
    requires Did(x, ms[..i], render, puts, y) && Turned(y, ms[i], i, render, put, z)
    ensures Did(x, ms[..i + 1], render, puts + [put], z)
  {
    TurnIs(y, ms[i], i, render, put, z);
    EventsStep(x.control, x.status, ms, i, render, puts, put);
    RunConcat(x.v, Events(x.control, x.status, ms[..i], render, puts),
              TurnEvents(y.control, y.status, ms[i], i, render, put));
  }

  lemma {:induction false} AllWellFormed<C(!new)>(c: Control<C>, status: map<string, Status>, v: State,
                                                  ms: seq<Message<C>>, render: Renderer<C>, puts: seq<Puts>)
    requires (forall c, p, n :: render(c, p, n).Valid()) && |puts| == |ms| && AllWritten(puts)
    requires AllPossible(v, Events(c, status, ms, render, puts))
    ensures forall e | e in Events(c, status, ms, render, puts) :: WellFormed(e)
    decreases ms
  {
    if ms != [] {
      var init, n := ms[..|ms| - 1], |ms| - 1;
      var h, st, es := History(c, init, render), StatusHistory(c, status, init, render),
                       Events(c, status, init, render, puts[..n]);
      RunConcat(v, es, TurnEvents(h, st, ms[n], n, render, puts[n]));
      AllWellFormed(c, status, v, init, render, puts[..n]);
      TurnWellFormed(h, st, Run(v, es), ms[n], n, render, puts[n]);
    }
  }

  lemma TurnWellFormed<C(!new)>(c: Control<C>, status: map<string, Status>, v: State, m: Message<C>, n: nat,
                                render: Renderer<C>, puts: Puts)
    requires (forall c, p, n :: render(c, p, n).Valid()) && puts.written
    requires AllPossible(v, TurnEvents(c, status, m, n, render, puts))
    ensures forall e | e in TurnEvents(c, status, m, n, render, puts) :: WellFormed(e)
  {
    if Renders(c, m) {
      var s := Receive(c.setup, m);
      RunTwo(v, Event.Remove(KeysGone(status, c.setup.names, m)),
             Ending(render(s.config, s.effective, n).Result(), puts.written, puts.landed));
    }
  }

  /** If all puts succeeded, cache and etcd agree. */
  lemma AgreesIfWritten<C(!new)>(x: Machine<C>, ms: seq<Message<C>>, render: Renderer<C>, puts: seq<Puts>)
    requires (forall c, p, n :: render(c, p, n).Valid()) && |puts| == |ms| && AllWritten(puts)
    requires Agree(x.v) && Keyed(x.v.cache) && AllPossible(x.v, Events(x.control, x.status, ms, render, puts))
    ensures Agree(Run(x.v, Events(x.control, x.status, ms, render, puts)))
  {
    AllWellFormed(x.control, x.status, x.v, ms, render, puts);
    RunKeepsAgreement(x.v, Events(x.control, x.status, ms, render, puts));
  }

  /** Cache and etcd differ exactly at the keys whose put landed in a commit that stopped, and not touched since. */
  ghost predicate StaleOnly<C(!new)>(x: Machine<C>, ms: seq<Message<C>>, render: Renderer<C>, puts: seq<Puts>, v: State)
    requires (forall c, p, n :: render(c, p, n).Valid()) && |puts| == |ms|
  {
    var es := Events(x.control, x.status, ms, render, puts);
    forall k :: Differs(v, k) <==> k in Stale(x.v, es)
  }

  /** Whatever messages come and whatever puts fail, cache and etcd differ exactly at the stale keys. */
  lemma DifferWhereStale<C(!new)>(x: Machine<C>, ms: seq<Message<C>>, render: Renderer<C>, puts: seq<Puts>)
    requires (forall c, p, n :: render(c, p, n).Valid()) && |puts| == |ms| && Agree(x.v) && Keyed(x.v.cache)
    requires AllPossible(x.v, Events(x.control, x.status, ms, render, puts))
    ensures StaleOnly(x, ms, render, puts, Run(x.v, Events(x.control, x.status, ms, render, puts)))
  {
    var es := Events(x.control, x.status, ms, render, puts);
    forall k ensures Differs(Run(x.v, es), k) <==> k in Stale(x.v, es) { RunDiffersExactlyAt(x.v, es, k); }
  }

  /** A rendering was asked for by one of the first messages. */
  ghost predicate Asked<C(!new)>(ms: seq<Message<C>>, i: nat)
    requires i <= |ms|
  {
    exists j | 0 <= j < i :: ms[j].Render?
  }

  lemma AskedStep<C(!new)>(ms: seq<Message<C>>, i: nat)
    requires i < |ms|
    ensures Asked(ms, i + 1) <==> Asked(ms, i) || ms[i].Render?
  {}

  /** Two maps of placements have the same for a pod, or both none. */
  predicate SameFor(m: Placements, m': Placements, pod: string)
  {
    (pod in m <==> pod in m') && (pod in m ==> m[pod] == m'[pod])
  }

  /** Messages that configure where a pod runs, or that it is no longer configured. */
  predicate Configures<C>(m: Message<C>, pod: string)
  {
    (m.Place? && m.placement.pod == pod) || (m.Unplace? && m.pod == pod)
  }

  /** Messages that decide where a pod is taken to run: taking it out of the configuration alone does not. */
  predicate Decides<C>(m: Message<C>, pod: string) { (m.Place? && m.placement.pod == pod) || m.Resync? }

  /** The last message before n that configures the pod is at j, or there is none and j is -1. */
  ghost predicate LastConfigures<C(!new)>(ms: seq<Message<C>>, n: nat, pod: string, j: int)
    requires n <= |ms|
  {
    -1 <= j < n && (j >= 0 ==> Configures(ms[j], pod)) && forall t | j < t < n :: !Configures(ms[t], pod)
  }

  ghost predicate LastDecides<C(!new)>(ms: seq<Message<C>>, pod: string, j: int)
  {
    -1 <= j < |ms| && (j >= 0 ==> Decides(ms[j], pod)) && forall t | j < t < |ms| :: !Decides(ms[t], pod)
  }

  /** After every sequence the configured placement of a pod is that of the last message that configures it. */
  lemma {:induction false} ConfiguredIs<C(!new)>(c: Control<C>, ms: seq<Message<C>>, render: Renderer<C>, pod: string,
                                                 j: int)
    requires LastConfigures(ms, |ms|, pod, j)
    ensures var m := History(c, ms, render).setup.configured;
            if j == -1 then SameFor(m, c.setup.configured, pod)
            else if ms[j].Place? then pod in m && m[pod] == ms[j].placement else pod !in m
    decreases ms
  {
    if ms != [] && j < |ms| - 1 {
      var init := ms[..|ms| - 1];
      assert LastConfigures(init, |init|, pod, j);
      ConfiguredIs(c, init, render, pod, j);
    }
  }

  /**
   * A resync puts the discovered placement of a pod into effect, or the configured one where nothing was discovered.
   */
  lemma {:induction false} EffectiveIs<C(!new)>(c: Control<C>, ms: seq<Message<C>>, render: Renderer<C>, pod: string,
                                                j: int)
    requires LastDecides(ms, pod, j)
    ensures var m := History(c, ms, render).setup.effective;
            if j == -1 then SameFor(m, c.setup.effective, pod)
            else match ms[j]
              case Place(p) => pod in m && m[pod] == p
              case Resync(d) =>
                if pod in d then pod in m && m[pod] == d[pod]
                else SameFor(m, History(c, ms[..j], render).setup.configured, pod)
              case _ => false
    decreases ms
  {
    if ms != [] && j < |ms| - 1 {
      var init := ms[..|ms| - 1];
      assert LastDecides(init, pod, j);
      EffectiveIs(c, init, render, pod, j);
      if j >= 0 { assert init[..j] == ms[..j]; }
    }
  }

  /**
   * So after every sequence a pod is where the last message that decides it puts it: where a placement says, where it
   * was discovered, or else where the last message before the resync that configures it says.
   */
  lemma PlacementIsDecided<C(!new)>(c: Control<C>, ms: seq<Message<C>>, render: Renderer<C>, pod: string, j: int,
                                    i: int)
    requires LastDecides(ms, pod, j) && (j >= 0 ==> LastConfigures(ms, j, pod, i))
    ensures var m := History(c, ms, render).setup.effective;
            && (j == -1 ==> SameFor(m, c.setup.effective, pod))
            && (j >= 0 && ms[j].Place? ==> pod in m && m[pod] == ms[j].placement)
            && (j >= 0 && ms[j].Resync? && pod in ms[j].discovered ==> pod in m && m[pod] == ms[j].discovered[pod])
            && (j >= 0 && ms[j].Resync? && pod !in ms[j].discovered ==>
                  if i == -1 then SameFor(m, c.setup.configured, pod)
                  else if ms[i].Place? then pod in m && m[pod] == ms[i].placement else pod !in m)
  {
    EffectiveIs(c, ms, render, pod, j);
    if j >= 0 {
      assert LastConfigures(ms[..j], j, pod, i);
      ConfiguredIs(c, ms[..j], render, pod, i);
    }
  }

  /** Messages that carry a new configuration. */
  predicate Carries<C>(m: Message<C>) { m.Configure? || m.Update? || m.Remove? }

  /** After every sequence the configuration is the one that the last message with one carries. */
  lemma {:induction false} ConfigIs<C(!new)>(c: Control<C>, ms: seq<Message<C>>, render: Renderer<C>, j: int)
    requires -1 <= j < |ms| && (j >= 0 ==> Carries(ms[j])) && forall t | j < t < |ms| :: !Carries(ms[t])
    ensures History(c, ms, render).setup.config == if j == -1 then c.setup.config else ms[j].config
    decreases ms
  {
    if ms != [] {
      var init, n := ms[..|ms| - 1], |ms| - 1;
      AdvanceConfig(History(c, init, render), ms[n], n, render);
      if j < n { ConfigIs(c, init, render, j); }
    }
  }

  lemma AdvanceConfig<C(!new)>(c: Control<C>, m: Message<C>, n: nat, render: Renderer<C>)
    ensures Advance(c, m, n, render).setup.config == if Carries(m) then m.config else c.setup.config
  {}

  /** What the turn at a position renders, if it does. */
  ghost function JobAt<C>(c: Control<C>, ms: seq<Message<C>>, t: nat, render: Renderer<C>): Job
    requires t < |ms|
  {
    var s := Receive(History(c, ms[..t], render).setup, ms[t]);
    render(s.config, s.effective, t)
  }

  /** The turn at t does the last rendering that found the entity valid, and no message was about it since. */
  ghost predicate LastFound<C(!new)>(c: Control<C>, ms: seq<Message<C>>, render: Renderer<C>, name: string, t: nat)
  {
    && t < |ms| && FoundValid(c, ms, t, render, name)
    && forall u | t < u < |ms| :: !Concerns(ms[u], name) && !FoundValid(c, ms, u, render, name)
  }

  lemma LastFoundBefore<C(!new)>(c: Control<C>, ms: seq<Message<C>>, render: Renderer<C>, name: string, t: nat)
    requires LastFound(c, ms, render, name, t) && t < |ms| - 1
    ensures LastFound(c, ms[..|ms| - 1], render, name, t)
    ensures JobAt(c, ms[..|ms| - 1], t, render) == JobAt(c, ms, t, render)
  {
    var init := ms[..|ms| - 1];
    forall u | 0 <= u < |init| ensures FoundValid(c, init, u, render, name) <==> FoundValid(c, ms, u, render, name) {
      assert init[..u] == ms[..u] && init[u] == ms[u];
    }
    assert init[..t] == ms[..t];
  }

  /** After every sequence such an entity has the status of that rendering. */
  lemma {:induction false} StatusIs<C(!new)>(c: Control<C>, status: map<string, Status>, ms: seq<Message<C>>,
                                             render: Renderer<C>, name: string, t: nat)
    requires LastFound(c, ms, render, name, t)
    ensures var job, st := JobAt(c, ms, t, render), StatusHistory(c, status, ms, render);
            name in Rendered(job) && name in st && st[name] == NewStatus(job.plans[name])
    decreases ms
  {
    var n := |ms| - 1;
    if t < n {
      LastFoundBefore(c, ms, render, name, t);
      StatusIs(c, status, ms[..n], render, name, t);
      assert !Concerns(ms[n], name) && !FoundValid(c, ms, n, render, name);
    }
    LastTurnOf(c, status, ms, render, name);
  }

  /** What the last turn does to the status of an entity. */
  lemma LastTurnOf<C(!new)>(c: Control<C>, status: map<string, Status>, ms: seq<Message<C>>, render: Renderer<C>,
                            name: string)
    requires ms != []
    ensures var n := |ms| - 1;
            var before, st := StatusHistory(c, status, ms[..n], render), StatusHistory(c, status, ms, render);
            if FoundValid(c, ms, n, render, name)
            then var job := JobAt(c, ms, n, render);
                 name in Rendered(job) && name in st && st[name] == NewStatus(job.plans[name])
            else !Concerns(ms[n], name) && name in before ==> name in st && st[name] == before[name]
  {
    var h := History(c, ms[..|ms| - 1], render);
    TurnOf(h, StatusHistory(c, status, ms[..|ms| - 1], render), ms[|ms| - 1], |ms| - 1, render, name);
  }

  lemma TurnOf<C(!new)>(c: Control<C>, status: map<string, Status>, m: Message<C>, n: nat, render: Renderer<C>,
                        name: string)
    ensures var s, st := Receive(c.setup, m), StatusStep(c, status, m, n, render);
            var job := render(s.config, s.effective, n);
            if Renders(c, m) && name in Rendered(job) then name in st && st[name] == NewStatus(job.plans[name])
            else !Concerns(m, name) && name in status ==> name in st && st[name] == status[name]
  {}

  /** A status that says that a configuration is not valid: not up, with a message and nothing recorded. */
  ghost predicate SaysNotValid(st: Status) { !st.up && st.recorded == map[] && st.msgs != [] && "OK" !in st.msgs }

  /** A node that was last updated with a configuration that is not valid has such a status until it is rendered. */
  lemma {:induction false} NotValidIsToldOf<C(!new)>(c: Control<C>, status: map<string, Status>, ms: seq<Message<C>>,
                                                     render: Renderer<C>, name: string, j: nat)
    requires j < |ms| && ms[j].Update? && ms[j].name == name && !ms[j].valid
    requires forall t | j <= t < |ms| :: (t > j ==> !Concerns(ms[t], name)) && !FoundValid(c, ms, t, render, name)
    ensures var st := StatusHistory(c, status, ms, render); name in st && SaysNotValid(st[name])
    decreases ms
  {
    var init, n := ms[..|ms| - 1], |ms| - 1;
    LastTurnOf(c, status, ms, render, name);
    assert !FoundValid(c, ms, n, render, name);
    if j < n {
      forall t | j <= t < n ensures !FoundValid(c, init, t, render, name) { FoundBefore(c, ms, t, render, name); }
      NotValidIsToldOf(c, status, init, render, name, j);
    } else {
      NotValidTurn(History(c, init, render), StatusHistory(c, status, init, render), ms[n], n, render);
    }
  }

  lemma FoundBefore<C(!new)>(c: Control<C>, ms: seq<Message<C>>, t: nat, render: Renderer<C>, name: string)
    requires t < |ms| - 1
    ensures FoundValid(c, ms[..|ms| - 1], t, render, name) <==> FoundValid(c, ms, t, render, name)
  {
    assert ms[..|ms| - 1][..t] == ms[..t];
  }

  lemma NotValidTurn<C(!new)>(c: Control<C>, status: map<string, Status>, m: Message<C>, n: nat, render: Renderer<C>)
    requires m.Update? && !m.valid
    ensures var s, st := Receive(c.setup, m), StatusStep(c, status, m, n, render);
            !(Renders(c, m) && m.name in Rendered(render(s.config, s.effective, n))) ==>
              m.name in st && SaysNotValid(st[m.name])
  {
    assert ["not valid"][0] != "OK" && |["not valid"]| == 1;
  }

  /**
   * So the deletion of such an entity takes exactly the keys out of the cache and out of etcd that the entity added in
   * the last rendering that found it valid.
   */
  lemma DeletesWhatItAdded<C(!new)>(c: Control<C>, status: map<string, Status>, ms: seq<Message<C>>,
                                    render: Renderer<C>, name: string, config: C, t: nat)
    requires LastFound(c, ms, render, name, t) && forall c, p, n :: render(c, p, n).Valid()
    requires name in History(c, ms, render).setup.names
    ensures var job, names := JobAt(c, ms, t, render), History(c, ms, render).setup.names;
            && name in Rendered(job)
            && KeysGone(StatusHistory(c, status, ms, render), names, Message.Remove(name, config))
               == Contribution(job.plans[name]).Keys
  {
    StatusIs(c, status, ms, render, name, t);
    var job := JobAt(c, ms, t, render);
    assert job.Valid();
    ContributionIsRecorded(job.plans[name]);
  }

  /** After every sequence an entity is there exactly if the last message about it was an update. */
  lemma {:induction false} NamesAre<C(!new)>(c: Control<C>, ms: seq<Message<C>>, render: Renderer<C>, name: string,
                                             j: int)
    requires -1 <= j < |ms| && (j >= 0 ==> Concerns(ms[j], name)) && forall t | j < t < |ms| :: !Concerns(ms[t], name)
    ensures name in History(c, ms, render).setup.names <==> if j == -1 then name in c.setup.names else ms[j].Update?
    decreases ms
  {
    if ms != [] && j < |ms| - 1 {
      NamesAre(c, ms[..|ms| - 1], render, name, j);
    }
    if ms != [] { ReceiveBare(History(c, ms[..|ms| - 1], render).setup, ms[|ms| - 1], name); }
  }

  /** Rendering is enabled after the message at a position. */
  ghost predicate IsOn<C(!new)>(c: Control<C>, ms: seq<Message<C>>, render: Renderer<C>, t: nat)
    requires t < |ms|
  {
    History(c, ms[..t + 1], render).setup.enabled
  }

  /** The switch is where the last message for it puts it. */
  lemma {:induction false} SwitchIsLast<C(!new)>(c: Control<C>, ms: seq<Message<C>>, render: Renderer<C>, j: int)
    requires -1 <= j < |ms| && (j >= 0 ==> ms[j].EnableRenderer? || ms[j].DisableRenderer?)
    requires forall t | j < t < |ms| :: !ms[t].EnableRenderer? && !ms[t].DisableRenderer?
    ensures History(c, ms, render).setup.enabled == if j == -1 then c.setup.enabled else ms[j].EnableRenderer?
    decreases ms
  {
    if ms != [] && j < |ms| - 1 { SwitchIsLast(c, ms[..|ms| - 1], render, j); }
  }

  /** A message after which a rendering is due: any but the switch, and a resync if it moved a pod. */
  ghost predicate Demands<C(!new)>(c: Control<C>, ms: seq<Message<C>>, render: Renderer<C>, j: nat)
    requires j < |ms|
  {
    && !ms[j].EnableRenderer? && !ms[j].DisableRenderer?
    && (ms[j].Resync? ==>
          History(c, ms[..j + 1], render).setup.effective != History(c, ms[..j], render).setup.effective)
  }

  /** Since the message at a position rendering has been disabled. */
  ghost predicate OffSince<C(!new)>(c: Control<C>, ms: seq<Message<C>>, render: Renderer<C>, j: nat)
  {
    forall t | j <= t < |ms| :: !IsOn(c, ms, render, t)
  }

  ghost predicate Due<C(!new)>(c: Control<C>, ms: seq<Message<C>>, render: Renderer<C>)
  {
    exists j | 0 <= j < |ms| :: Demands(c, ms, render, j) && OffSince(c, ms, render, j)
  }

  lemma SameBefore<C(!new)>(c: Control<C>, ms: seq<Message<C>>, render: Renderer<C>, t: nat)
    requires t < |ms| - 1
    ensures var init := ms[..|ms| - 1];
            && (IsOn(c, init, render, t) <==> IsOn(c, ms, render, t))
            && (Demands(c, init, render, t) <==> Demands(c, ms, render, t))
  {
    var init := ms[..|ms| - 1];
    assert init[..t + 1] == ms[..t + 1] && init[..t] == ms[..t];
  }

  lemma OffStep<C(!new)>(c: Control<C>, ms: seq<Message<C>>, render: Renderer<C>, j: nat)
    requires j < |ms|
    ensures OffSince(c, ms, render, j) <==> OffSince(c, ms[..|ms| - 1], render, j) && !IsOn(c, ms, render, |ms| - 1)
  {
    var init := ms[..|ms| - 1];
    forall t | 0 <= t < |init| ensures IsOn(c, init, render, t) <==> IsOn(c, ms, render, t) {
      SameBefore(c, ms, render, t);
    }
    if OffSince(c, ms, render, j) {
      forall t | j <= t < |init| ensures !IsOn(c, init, render, t) { assert !IsOn(c, ms, render, t); }
    }
  }

  lemma DueStep<C(!new)>(c: Control<C>, ms: seq<Message<C>>, render: Renderer<C>)
    requires ms != []
    ensures var init, n := ms[..|ms| - 1], |ms| - 1;
            Due(c, ms, render) <==>
              !IsOn(c, ms, render, n) && (Due(c, init, render) || Demands(c, ms, render, n))
  {
    var init, n := ms[..|ms| - 1], |ms| - 1;
    OffStep(c, ms, render, n);
    if j :| 0 <= j < |ms| && Demands(c, ms, render, j) && OffSince(c, ms, render, j) {
      OffStep(c, ms, render, j);
      if j < n { SameBefore(c, ms, render, j); }
    }
    if j :| 0 <= j < |init| && Demands(c, init, render, j) && OffSince(c, init, render, j) {
      OffStep(c, ms, render, j);
      SameBefore(c, ms, render, j);
    }
  }

  /** After every sequence a rendering is pending exactly if one is due since which rendering has been disabled. */
  lemma {:induction false} PendingExactlyIf<C(!new)>(c: Control<C>, ms: seq<Message<C>>, render: Renderer<C>)
    ensures History(c, ms, render).pending <==> (c.pending && OffSince(c, ms, render, 0)) || Due(c, ms, render)
    decreases ms
  {
    if ms != [] {
      var init, n := ms[..|ms| - 1], |ms| - 1;
      PendingExactlyIf(c, init, render);
      DueStep(c, ms, render);
      OffStep(c, ms, render, 0);
      assert ms[..n + 1] == ms && ms[..n] == init;
      PendingStep(History(c, init, render), ms[n], n, render);
    }
  }

  lemma PendingStep<C(!new)>(c: Control<C>, m: Message<C>, n: nat, render: Renderer<C>)
    ensures var h := Advance(c, m, n, render);
            h.pending <==>
              && !h.setup.enabled
              && (c.pending || (!m.EnableRenderer? && !m.DisableRenderer? &&
                                (m.Resync? ==> h.setup.effective != c.setup.effective)))
  {}

  /** A turn of the loop in which a rendering is done. */
  predicate Renders<C>(c: Control<C>, m: Message<C>)
  {
    Receive(c.setup, m).enabled && (c.pending || AsksToRender(c.setup, m))
  }

  /** The turn at a position does a rendering that finds the entity and its configuration valid. */
  ghost predicate FoundValid<C(!new)>(c: Control<C>, ms: seq<Message<C>>, t: nat, render: Renderer<C>, name: string)
    requires t < |ms|
  {
    var h := History(c, ms[..t], render);
    var s := Receive(h.setup, ms[t]);
    Renders(h, ms[t]) && name in Rendered(render(s.config, s.effective, t))
  }

  /** A message about the entity itself. */
  ghost predicate Concerns<C>(m: Message<C>, name: string) { (m.Update? || m.Remove?) && m.name == name }

  /**
   * The last message about the entity was a valid update, or there was none and it had no status at first; and no
   * rendering has found it valid since.
   */
  ghost predicate NotRendered<C(!new)>(c: Control<C>, ms: seq<Message<C>>, render: Renderer<C>, name: string)
  {
    NeverRendered(c, ms, render, name) || exists j | 0 <= j < |ms| :: NotRenderedSince(c, ms, render, name, j)
  }

  ghost predicate NeverRendered<C(!new)>(c: Control<C>, ms: seq<Message<C>>, render: Renderer<C>, name: string)
  {
    name in c.setup.bare && forall t | 0 <= t < |ms| :: !Concerns(ms[t], name) && !FoundValid(c, ms, t, render, name)
  }

  ghost predicate NotRenderedSince<C(!new)>(c: Control<C>, ms: seq<Message<C>>, render: Renderer<C>, name: string,
                                            j: nat)
    requires j < |ms|
  {
    && ms[j].Update? && ms[j].name == name && ms[j].valid
    && (forall t | j < t < |ms| :: !Concerns(ms[t], name))
    && (forall t | j <= t < |ms| :: !FoundValid(c, ms, t, render, name))
  }

  lemma NotRenderedStep<C(!new)>(c: Control<C>, ms: seq<Message<C>>, render: Renderer<C>, name: string)
    requires ms != []
    ensures var init, last := ms[..|ms| - 1], ms[|ms| - 1];
            NotRendered(c, ms, render, name) <==>
              && !FoundValid(c, ms, |ms| - 1, render, name)
              && if Concerns(last, name) then last.Update? && last.valid else NotRendered(c, init, render, name)
  {
    var init, last := ms[..|ms| - 1], ms[|ms| - 1];
    forall t | 0 <= t < |init| ensures FoundValid(c, init, t, render, name) <==> FoundValid(c, ms, t, render, name) {
      assert init[..t] == ms[..t] && init[t] == ms[t];
    }
    if FoundValid(c, ms, |ms| - 1, render, name) { return; }
    assert NeverRendered(c, ms, render, name) <==> !Concerns(last, name) && NeverRendered(c, init, render, name);
    if Concerns(last, name) {
      if last.Update? && last.valid { assert NotRenderedSince(c, ms, render, name, |ms| - 1); }
    } else {
      if j :| 0 <= j < |ms| && NotRenderedSince(c, ms, render, name, j) {
        assert NotRenderedSince(c, init, render, name, j);
      }
      if j :| 0 <= j < |init| && NotRenderedSince(c, init, render, name, j) {
        assert NotRenderedSince(c, ms, render, name, j);
      }
    }
  }

  lemma ReceiveBare<C(!new)>(s: Setup<C>, m: Message<C>, name: string)
    ensures name in Receive(s, m).bare <==> if Concerns(m, name) then m.Update? && m.valid else name in s.bare
    ensures name in Receive(s, m).names <==> if Concerns(m, name) then m.Update? else name in s.names
  {}

  lemma AdvanceBare<C(!new)>(c: Control<C>, m: Message<C>, n: nat, render: Renderer<C>, name: string)
    ensures var s, h := Receive(c.setup, m), Advance(c, m, n, render).setup;
            && (name in h.bare <==>
                  name in s.bare && !(Renders(c, m) && name in Rendered(render(s.config, s.effective, n))))
            && h.names == s.names
  {}

  /**
   * For every sequence of messages and whatever is rendered, an entity has no status exactly if it got none from the
   * last message about it, or at first, and no rendering has found it valid since.
   */
  lemma {:induction false} BareExactlyIf<C(!new)>(c: Control<C>, ms: seq<Message<C>>, render: Renderer<C>, name: string)
    requires c.setup.bare <= c.setup.names
    ensures var h := History(c, ms, render).setup;
            (name in h.bare <==> NotRendered(c, ms, render, name)) && (name in h.bare ==> name in h.names)
    decreases ms
  {
    if ms != [] {
      var init, last := ms[..|ms| - 1], ms[|ms| - 1];
      BareExactlyIf(c, init, render, name);
      NotRenderedStep(c, ms, render, name);
      ReceiveBare(History(c, init, render).setup, last, name);
      AdvanceBare(History(c, init, render), last, |init|, render, name);
    }
  }

  /** The message at a position ends the process. */
  ghost predicate FatalAt<C(!new)>(c: Control<C>, ms: seq<Message<C>>, render: Renderer<C>, i: nat)
    requires i < |ms|
  {
    || (ms[i].Update? && ms[i].service && !ms[i].valid)
    || (ms[i].Remove? && NotRendered(c, ms[..i], render, ms[i].name))
  }

  lemma FatalIs<C(!new)>(c: Control<C>, ms: seq<Message<C>>, render: Renderer<C>, i: nat)
    requires c.setup.bare <= c.setup.names && i < |ms|
    ensures Fatal(History(c, ms[..i], render).setup, ms[i]) <==> FatalAt(c, ms, render, i)
  {
    if ms[i].Remove? { BareExactlyIf(c, ms[..i], render, ms[i].name); }
  }

  /**
   * For every sequence of messages and whatever is rendered, the process survives exactly if no message updates a
   * service that is not valid, and none deletes an entity that no rendering has found valid since its last update,
   * or since the start if it had no status then.
   */
  lemma {:induction false} SurvivesExactlyIf<C(!new)>(c: Control<C>, ms: seq<Message<C>>, render: Renderer<C>)
    requires c.setup.bare <= c.setup.names
    ensures Survives(c, ms, render) <==> forall i | 0 <= i < |ms| :: !FatalAt(c, ms, render, i)
    decreases ms
  {
    if ms != [] {
      var init := ms[..|ms| - 1];
      SurvivesExactlyIf(c, init, render);
      FatalIs(c, ms, render, |ms| - 1);
      forall i | 0 <= i < |init| ensures FatalAt(c, init, render, i) <==> FatalAt(c, ms, render, i) {
        assert init[..i] == ms[..i] && init[i] == ms[i];
      }
    }
  }

  /** The switch after a sequence of messages. */
  function SwitchedOn<C>(enabled: bool, ms: seq<Message<C>>): bool
    decreases ms
  {
    if ms == [] then enabled else
      match ms[|ms| - 1]
      case EnableRenderer => true
      case DisableRenderer => false
      case _ => SwitchedOn(enabled, ms[..|ms| - 1])
  }

  /** Every rendering finds the entities without a status there, and their configurations valid. */
  ghost predicate RendersAll<C(!new)>(c: Control<C>, ms: seq<Message<C>>, render: Renderer<C>)
  {
    forall i | 0 <= i < |ms| :: RendersBare(History(c, ms[..i], render), ms[i], i, render)
  }

  ghost predicate RendersBare<C(!new)>(c: Control<C>, m: Message<C>, n: nat, render: Renderer<C>)
  {
    var s := Receive(c.setup, m);
    Renders(c, m) ==> s.bare <= Rendered(render(s.config, s.effective, n))
  }

  /** The switch after the message at a position. */
  function OnAfter<C>(enabled: bool, ms: seq<Message<C>>, t: nat): bool
    requires t < |ms|
  {
    SwitchedOn(enabled, ms[..t + 1])
  }

  /** The entity was updated last by a message since which rendering has been disabled all the time. */
  ghost predicate Waits<C(!new)>(enabled: bool, ms: seq<Message<C>>, name: string)
  {
    exists j | 0 <= j < |ms| :: WaitsFrom(enabled, ms, name, j)
  }

  ghost predicate WaitsFrom<C(!new)>(enabled: bool, ms: seq<Message<C>>, name: string, j: nat)
    requires j < |ms|
  {
    && ms[j].Update? && ms[j].name == name && ms[j].valid
    && (forall t | j < t < |ms| :: !Concerns(ms[t], name))
    && (forall t | j <= t < |ms| :: !OnAfter(enabled, ms, t))
  }

  lemma {:induction false} SwitchIs<C(!new)>(c: Control<C>, ms: seq<Message<C>>, render: Renderer<C>)
    ensures History(c, ms, render).setup.enabled == SwitchedOn(c.setup.enabled, ms)
    decreases ms
  {
    if ms != [] { SwitchIs(c, ms[..|ms| - 1], render); }
  }

  lemma RendersAllPrefix<C(!new)>(c: Control<C>, ms: seq<Message<C>>, n: nat, render: Renderer<C>)
    requires RendersAll(c, ms, render) && n <= |ms|
    ensures RendersAll(c, ms[..n], render)
  {
    assert forall i | 0 <= i < n :: ms[..n][..i] == ms[..i];
  }

  lemma BareStep<C(!new)>(c: Control<C>, m: Message<C>, n: nat, render: Renderer<C>)
    requires (c.setup.bare != {} ==> c.pending) && RendersBare(c, m, n, render)
    ensures var h := Advance(c, m, n, render);
            && (h.setup.bare != {} ==> h.pending)
            && h.setup.bare == if h.setup.enabled then {} else Receive(c.setup, m).bare
  {
    var s := Receive(c.setup, m);
    assert s.bare != {} ==> c.pending || AsksToRender(c.setup, m);
    if Renders(c, m) { assert s.bare - Rendered(render(s.config, s.effective, n)) == {}; }
  }

  /** Then an entity has no status exactly if it was updated while rendering was disabled, and that is so still. */
  lemma {:induction false} BareWaits<C(!new)>(c: Control<C>, ms: seq<Message<C>>, render: Renderer<C>, name: string)
    requires c.setup.bare == {} && RendersAll(c, ms, render)
    ensures var h := History(c, ms, render);
            (h.setup.bare != {} ==> h.pending) && (name in h.setup.bare <==> Waits(c.setup.enabled, ms, name))
    decreases ms
  {
    if ms != [] {
      RendersAllPrefix(c, ms, |ms| - 1, render);
      BareWaits(c, ms[..|ms| - 1], render, name);
      assert RendersBare(History(c, ms[..|ms| - 1], render), ms[|ms| - 1], |ms| - 1, render);
      BareWaitsStep(c, ms, render, name);
    }
  }

  lemma BareWaitsStep<C(!new)>(c: Control<C>, ms: seq<Message<C>>, render: Renderer<C>, name: string)
    requires ms != [] && RendersBare(History(c, ms[..|ms| - 1], render), ms[|ms| - 1], |ms| - 1, render)
    requires var h := History(c, ms[..|ms| - 1], render);
             && (h.setup.bare != {} ==> h.pending)
             && (name in h.setup.bare <==> Waits(c.setup.enabled, ms[..|ms| - 1], name))
    ensures var h := History(c, ms, render);
            (h.setup.bare != {} ==> h.pending) && (name in h.setup.bare <==> Waits(c.setup.enabled, ms, name))
  {
    var h := History(c, ms[..|ms| - 1], render);
    BareStep(h, ms[|ms| - 1], |ms| - 1, render);
    ReceiveBare(h.setup, ms[|ms| - 1], name);
    SwitchIs(c, ms, render);
    WaitsStep(c.setup.enabled, ms, name);
  }

  lemma WaitsStep<C(!new)>(enabled: bool, ms: seq<Message<C>>, name: string)
    requires ms != []
    ensures var init, last := ms[..|ms| - 1], ms[|ms| - 1];
            Waits(enabled, ms, name) <==>
              && !SwitchedOn(enabled, ms)
              && if Concerns(last, name) then last.Update? && last.valid else Waits(enabled, init, name)
  {
    var init, last := ms[..|ms| - 1], ms[|ms| - 1];
    assert ms[..|ms|] == ms && OnAfter(enabled, ms, |ms| - 1) == SwitchedOn(enabled, ms);
    forall t | 0 <= t < |init| ensures OnAfter(enabled, init, t) == OnAfter(enabled, ms, t) {
      assert init[..t + 1] == ms[..t + 1];
    }
    if Waits(enabled, ms, name) && !Concerns(last, name) {
      var j :| 0 <= j < |ms| && WaitsFrom(enabled, ms, name, j);
      assert WaitsFrom(enabled, init, name, j);
    }
    if !SwitchedOn(enabled, ms) && !Concerns(last, name) && Waits(enabled, init, name) {
      var j :| 0 <= j < |init| && WaitsFrom(enabled, init, name, j);
      assert WaitsFrom(enabled, ms, name, j);
    }
    if !SwitchedOn(enabled, ms) && Concerns(last, name) && last.Update? && last.valid {
      assert WaitsFrom(enabled, ms, name, |ms| - 1);
    }
  }

  /** What can be told from the messages alone to end the process at a position. */
  ghost predicate FatalIfRendered<C(!new)>(enabled: bool, ms: seq<Message<C>>, i: nat)
    requires i < |ms|
  {
    (ms[i].Update? && ms[i].service && !ms[i].valid) || (ms[i].Remove? && Waits(enabled, ms[..i], ms[i].name))
  }

  /**
   * Where every rendering finds the entities without a status valid, the messages alone decide: the process survives
   * exactly if they have no update of a service that is not valid, and no deletion of an entity that was updated since
   * rendering was last enabled.
   */
  lemma SurvivesIfRendered<C(!new)>(c: Control<C>, ms: seq<Message<C>>, render: Renderer<C>)
    requires c.setup.bare == {} && RendersAll(c, ms, render)
    ensures Survives(c, ms, render) <==> forall i | 0 <= i < |ms| :: !FatalIfRendered(c.setup.enabled, ms, i)
  {
    SurvivesExactlyIf(c, ms, render);
    forall i | 0 <= i < |ms| ensures FatalAt(c, ms, render, i) <==> FatalIfRendered(c.setup.enabled, ms, i) {
      if ms[i].Remove? {
        RendersAllPrefix(c, ms, i, render);
        BareExactlyIf(c, ms[..i], render, ms[i].name);
        BareWaits(c, ms[..i], render, ms[i].name);
      }
    }
  }

  /** An input that ends the process: an entity is created and deleted before rendering is enabled. */
  lemma DeletedBeforeRendering<C(!new)>(c: Control<C>, config: C, name: string, render: Renderer<C>)
    requires !c.setup.enabled
    ensures !Survives(c, [Update(name, true, true, config), Message.Remove(name, config)], render)
  {
    var ms := [Update(name, true, true, config), Message.Remove(name, config)];
    assert ms[..1] == [ms[0]] && ms[..1][..0] == [];
    assert History(c, ms[..1], render) == Advance(c, ms[0], 0, render);
    assert ms[..|ms| - 1] == ms[..1];
    assert Fatal(History(c, ms[..1], render).setup, ms[1]);
  }

  /**
   * Another one, with rendering enabled before the deletion: a service is updated, the system parameters that it
   * refers to are changed, so that the rendering finds it not valid and gives it no status, and it is deleted.
   */
  lemma DeletedWhenNotValid<C(!new)>(c: Control<C>, x: C, y: C, name: string, render: Renderer<C>)
    requires !c.setup.enabled && name !in Rendered(render(y, c.setup.effective, 2))
    ensures !Survives(c, [Update(name, true, true, x), Configure(y), EnableRenderer, Message.Remove(name, y)], render)
  {
    var ms := [Update(name, true, true, x), Configure(y), EnableRenderer, Message.Remove(name, y)];
    assert ms[..1][..0] == [] && ms[..2][..1] == ms[..1] && ms[..3][..2] == ms[..2] && ms[..|ms| - 1] == ms[..3];
    assert History(c, ms[..1], render) == Advance(c, ms[0], 0, render);
    assert History(c, ms[..2], render) == Advance(History(c, ms[..1], render), ms[1], 1, render);
    assert History(c, ms[..3], render) == Advance(History(c, ms[..2], render), ms[2], 2, render);
    assert Fatal(History(c, ms[..3], render).setup, ms[3]);
  }

  /** The messages alone do not tell that one. */
  lemma NotTold<C(!new)>(x: C, y: C, name: string, i: nat)
    requires i < 4
    ensures var ms := [Update(name, true, true, x), Configure(y), EnableRenderer, Message.Remove(name, y)];
            !FatalIfRendered(false, ms, i)
  {
    var ms := [Update(name, true, true, x), Configure(y), EnableRenderer, Message.Remove(name, y)];
    if i == 3 {
      assert ms[..3][..3] == ms[..3];
      assert OnAfter(false, ms[..3], 2);
    }
  }
}
