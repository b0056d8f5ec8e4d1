/** Rendering of nodes and services one after the other, and the reload of their entries at a restart. */
module Entities {
  import opened Entries
  import opened Commit
  import opened RenderTxn

  /**
   * What the renderer of an entity does to the transaction: adds an entry, adds entries through a
   * temporary record that is merged afterwards, or gives up with a status message.
   */
  datatype Step = Add(kv: KV) | AddThrough(kvs: seq<KV>) | Fail(msg: string)

  /** How an entity renders: whether its configuration is valid, and the steps if it is. */
  datatype Plan = Plan(valid: bool, steps: seq<Step>)

  /** The status of an entity: the keys it has recorded with their types, and its messages. */
  datatype Status = Status(recorded: map<Key, string>, msgs: seq<string>, up: bool)

  /** What an entity has recorded; one that has no status, because it was not rendered yet, has recorded nothing. */
  function RecordedOf(status: map<string, Status>, name: string): map<Key, string>
  {
    if name in status then status[name].recorded else map[]
  }

  /** The top level of the transaction and the entity's record of it. */
  datatype Level = Level(entries: map<Key, KV>, recorded: map<Key, string>)

  function AddOne(l: Level, kv: KV): Level
  {
    Level(l.entries[kv.key := kv],
          if kv.key in l.entries then l.recorded else l.recorded[kv.key := EntryType(kv.body)])
  }

  function AddAll(l: Level, kvs: seq<KV>): Level
    decreases kvs
  {
    if kvs == [] then l else AddOne(AddAll(l, kvs[..|kvs| - 1]), kvs[|kvs| - 1])
  }

  /** A step that does not fail. */
  function Exec(l: Level, s: Step): Level
    requires !s.Fail?
  {
    match s
    case Add(kv) => AddOne(l, kv)
    case AddThrough(kvs) =>
      var temp := AddAll(Level(l.entries, map[]), kvs);
      Level(temp.entries, l.recorded + temp.recorded)
  }

  /** The steps up to the first failure. */
  function ExecAll(l: Level, steps: seq<Step>): Level
    decreases steps
  {
    if steps == [] || steps[0].Fail? then l else ExecAll(Exec(l, steps[0]), steps[1..])
  }

  /** The message of the first step that fails, if there is one. */
  function Messages(steps: seq<Step>): seq<string>
    decreases steps
  {
    if steps == [] then [] else if steps[0].Fail? then [steps[0].msg] else Messages(steps[1..])
  }

  ghost predicate Succeeds(p: Plan) { p.valid && Messages(p.steps) == [] }

  const EMPTY := Level(map[], map[])

  /** The entries that an entity adds to the transaction: all that it rendered, or none. */
  ghost function Contribution(p: Plan): map<Key, KV>
  {
    if Succeeds(p) then ExecAll(EMPTY, p.steps).entries else map[]
  }

  /** The status of an entity whose valid configuration was rendered. */
  ghost function NewStatus(p: Plan): Status
    requires p.valid
  {
    if Succeeds(p) then Status(ExecAll(EMPTY, p.steps).recorded, ["OK"], true)
    else Status(map[], Messages(p.steps), false)
  }

  /** A status says whether the entity was rendered, and why not. */
  lemma StatusTells(p: Plan)
    requires p.valid
    ensures NewStatus(p).up <==> Messages(p.steps) == []
    ensures NewStatus(p).msgs == (if Messages(p.steps) == [] then ["OK"] else Messages(p.steps))
    ensures !NewStatus(p).up ==> NewStatus(p).recorded == map[]
  {}

  /** The statuses after rendering; a configuration that is not valid leaves the old one, or none. */
  ghost function StatusSet(status: map<string, Status>, name: string, p: Plan): map<string, Status>
  {
    if p.valid then status[name := NewStatus(p)] else status
  }

  /** The entries of a sequence of entities, later ones laid over earlier ones. */
  ghost function Rendering(order: seq<string>, plans: map<string, Plan>): map<Key, KV>
    requires forall n | n in order :: n in plans
    decreases order
  {
    if order == [] then map[]
    else Rendering(order[..|order| - 1], plans) + Contribution(plans[order[|order| - 1]])
  }

  /** The statuses after a sequence of entities has been rendered. */
  ghost function StatusesAfter(order: seq<string>, plans: map<string, Plan>,
                               status: map<string, Status>): map<string, Status>
    requires forall n | n in order :: n in plans
    decreases order
  {
    if order == [] then status else
      var last := order[|order| - 1];
      StatusSet(StatusesAfter(order[..|order| - 1], plans, status), last, plans[last])
  }

  ghost predicate Distinct(order: seq<string>) { forall i, j | 0 <= i < j < |order| :: order[i] != order[j] }

  /** Each entity's status depends on its own rendering only. */
  lemma {:induction false} StatusesAreSeparate(order: seq<string>, plans: map<string, Plan>,
                                               status: map<string, Status>, n: string)
    requires Distinct(order) && forall e | e in order :: e in plans
    ensures var m := StatusesAfter(order, plans, status);
            if n in order && plans[n].valid then n in m && m[n] == NewStatus(plans[n])
            else (n in m <==> n in status) && (n in m ==> m[n] == status[n])
    decreases order
  {
    if order != [] {
      var init, last := order[..|order| - 1], order[|order| - 1];
      assert last !in init && forall e :: e in order <==> e in init || e == last;
      StatusesAreSeparate(init, plans, status, n);
    }
  }

  /** The work of one rendering: the entities in the order of the renderers' loops, and what each does. */
  datatype Job = Job(order: seq<string>, plans: map<string, Plan>) {
    ghost predicate Valid()
    {
      && (forall n | n in order :: n in plans && PlanTyped(plans[n]))
      && Distinct(order)
    }

    ghost function Result(): map<Key, KV>
      requires Valid()
    {
      Rendering(order, plans)
    }
  }

  /** Every record has its keys' types. */
  ghost predicate AllTyped(status: map<string, Status>) { forall n | n in status :: RecordTyped(status[n].recorded) }

  lemma OverrideAssociates(a: map<Key, KV>, b: map<Key, KV>, c: map<Key, KV>)
    ensures (a + b) + c == a + (b + c)
  {}

  class EntityManager {
    var status: map<string, Status>

    constructor ()
      ensures status == map[]
    {
      status := map[];
    }

    /** Runs the steps of one entity against the top level of the transaction. */
    method RenderSteps(t: Transactor, steps: seq<Step>) returns (recorded: map<Key, string>, msgs: seq<string>)
      requires t.after != [] && t.after[|t.after| - 1] == map[]
      modifies t`after
      ensures |t.after| == |old(t.after)| && t.after[..|t.after| - 1] == old(t.after[..|t.after| - 1])
      ensures Level(t.after[|t.after| - 1], recorded) == ExecAll(EMPTY, steps)
      ensures msgs == Messages(steps)
    {
      recorded, msgs := map[], [];
      for i := 0 to |steps|
        invariant |t.after| == |old(t.after)| && t.after[..|t.after| - 1] == old(t.after[..|t.after| - 1])
        invariant ExecAll(Level(t.after[|t.after| - 1], recorded), steps[i..]) == ExecAll(EMPTY, steps)
        invariant msgs == [] && Messages(steps[i..]) == Messages(steps)
      {
        assert steps[i..][0] == steps[i] && steps[i..][1..] == steps[i + 1..];
        match steps[i]
        case Add(kv) => recorded := t.AddVppEntry(recorded, kv);
        case AddThrough(kvs) =>
          var temp := AddThroughRecord(t, kvs);
          recorded := recorded + temp;
        case Fail(msg) =>
          msgs := [msg];
          return;
      }
      assert steps[|steps|..] == [];
    }

    /** Adds entries with a record of their own, as the loopback and route renderer does. */
    method AddThroughRecord(t: Transactor, kvs: seq<KV>) returns (temp: map<Key, string>)
      requires t.after != []
      modifies t`after
      ensures |t.after| == |old(t.after)| && t.after[..|t.after| - 1] == old(t.after[..|t.after| - 1])
      ensures Level(t.after[|t.after| - 1], temp) == AddAll(Level(old(t.after[|t.after| - 1]), map[]), kvs)
    {
      temp := map[];
      ghost var l := Level(t.after[|t.after| - 1], map[]);
      for i := 0 to |kvs|
        invariant |t.after| == |old(t.after)| && t.after[..|t.after| - 1] == old(t.after[..|t.after| - 1])
        invariant Level(t.after[|t.after| - 1], temp) == AddAll(l, kvs[..i])
      {
        assert kvs[..i + 1][..i] == kvs[..i];
        temp := t.AddVppEntry(temp, kvs[i]);
      }
      assert kvs[..|kvs|] == kvs;
    }

    /** Renders one entity on a level of its own, which it clears again if there was any message. */
    method RenderConfig(t: Transactor, name: string, p: Plan)
      requires t.after != []
      modifies this, t`after
      ensures t.after == old(t.after)[|old(t.after)| - 1 := old(t.after[|t.after| - 1]) + Contribution(p)]
      ensures status == StatusSet(old(status), name, p)
    {
      ghost var a := t.after;
      t.EntityStart();
      if !p.valid {
        t.EntityEnd();
        assert a[|a| - 1] + map[] == a[|a| - 1];
        return;
      }
      var recorded, msgs := RenderSteps(t, p.steps);
      assert t.after[..|a|] == a;
      if msgs == [] {
        status := status[name := Status(recorded, ["OK"], true)];
      } else {
        t.EntityRemoveEntries();
        status := status[name := Status(map[], msgs, false)];
      }
      assert t.after == a + [Contribution(p)];
      t.EntityEnd();
    }

    /** Renders the entities in the given order, nodes before services. */
    method RenderAll(t: Transactor, order: seq<string>, plans: map<string, Plan>)
      requires |t.after| == 1 && forall n | n in order :: n in plans
      modifies this, t`after
      ensures t.after == [old(t.after[0]) + Rendering(order, plans)]
      ensures status == StatusesAfter(order, plans, old(status))
    {
      for i := 0 to |order|
        invariant |t.after| == 1 && t.after[0] == old(t.after[0]) + Rendering(order[..i], plans)
        invariant status == StatusesAfter(order[..i], plans, old(status))
      {
        assert order[..i + 1][..i] == order[..i];
        OverrideAssociates(old(t.after[0]), Rendering(order[..i], plans), Contribution(plans[order[i]]));
        RenderConfig(t, order[i], plans[order[i]]);
      }
      assert order[..|order|] == order;
    }

    /** Starts a transaction and renders the entities. */
    method RenderJob(t: Transactor, job: Job)
      requires job.Valid() && AllTyped(status) && Keyed(t.vppEntries)
      modifies this, t`before, t`after
      ensures status == StatusesAfter(job.order, job.plans, old(status)) && AllTyped(status)
      ensures t.after == [job.Result()] && t.before == t.vppEntries && Keyed(job.Result())
    {
      ghost var before := status;
      t.ConfigStart();
      RenderAll(t, job.order, job.plans);
      JobIsRecorded(job, before);
      RenderingIsRecorded(job.order, job.plans, status);
      assert map[] + job.Result() == job.Result();
    }

    /** One transaction: starts it, renders the entities and commits. */
    method RenderTransaction(t: Transactor, job: Job) returns (written: bool, ghost landed: set<Key>)
      requires job.Valid() && AllTyped(status) && Keyed(t.vppEntries)
      modifies this, t
      ensures status == StatusesAfter(job.order, job.plans, old(status)) && AllTyped(status) && Keyed(t.vppEntries)
      ensures t.failures == old(t.failures) + if written then 0 else 1
      ensures var e := Ending(job.Result(), written, landed);
              t.Value() == Apply(old(t.Value()), e) && Possible(old(t.Value()), e)
    {
      ghost var s := t.Value();
      RenderJob(t, job);
      ghost var tried;
      written, landed, tried := t.ConfigEnd();
      CommitKeepsKeyed(s, job.Result(), written, landed);
    }

    /** Reads the entries that an entity has recorded from etcd into the cache. */
    method LoadRecorded(t: Transactor, recorded: map<Key, string>) returns (ok: bool)
      modifies t`vppEntries
      ensures ok ==> t.vppEntries == old(t.vppEntries) + Found(t.etcd, recorded.Keys)
      ensures ok <==> Readable(t.etcd, recorded)
    {
      var keys := recorded.Keys;
      ghost var done: set<Key> := {};
      assert Found(t.etcd, {}) == map[];
      while keys != {}
        invariant keys <= recorded.Keys && done == recorded.Keys - keys
        invariant t.vppEntries == old(t.vppEntries) + Found(t.etcd, done)
        invariant forall k | k in done :: ReadableAs(t.etcd, k, recorded[k])
      {
        var key :| key in keys;
        FoundOneMore(old(t.vppEntries), t.etcd, done, key);
        match ReadFromEtcd(t.etcd, key, recorded[key]) {
          case Broken => return false;
          case Missing =>
          case Read(kv) => t.vppEntries := t.vppEntries[kv.key := kv];
        }
        keys := keys - {key};
        done := done + {key};
      }
      return true;
    }

    /** Rebuilds the cache from the records of all entities. */
    method Reload(t: Transactor, order: seq<string>) returns (ok: bool)
      modifies t`vppEntries
      ensures ok ==> t.vppEntries == Found(t.etcd, AllRecorded(order, status))
      ensures ok <==> forall n | n in order :: Readable(t.etcd, RecordedOf(status, n))
    {
      t.vppEntries := map[];
      assert Found(t.etcd, {}) == map[];
      for i := 0 to |order|
        invariant t.vppEntries == Found(t.etcd, AllRecorded(order[..i], status))
        invariant forall n | n in order[..i] :: Readable(t.etcd, RecordedOf(status, n))
      {
        assert order[..i + 1][..i] == order[..i];
        ghost var more := RecordedOf(status, order[i]).Keys;
        if order[i] in status {
          ok := LoadRecorded(t, status[order[i]].recorded);
          if !ok {
            assert order[i] in order;
            return;
          }
        }
        FoundUnion(t.etcd, AllRecorded(order[..i], status), more);
      }
      assert order[..|order|] == order;
      ok := true;
    }
  }

  datatype ReadResult = Read(kv: KV) | Missing | Broken

  /** Reads the value of a key as the given type; a type that is unknown, or not the value's, is an error. */
  function ReadFromEtcd(etcd: map<Key, Body>, key: Key, entryType: string): ReadResult
  {
    if entryType !in {"interface", "linuxif", "l2bd", "l2xc", "l3vrf", "arp"} then Broken
    else if key !in etcd then Missing
    else if EntryType(etcd[key]) != entryType then Broken
    else Read(KV(key, etcd[key]))
  }

  /** Every recorded type is known, and is the type of what etcd has under the key, if it has anything. */
  ghost predicate Readable(etcd: map<Key, Body>, recorded: map<Key, string>)
  {
    forall k | k in recorded :: ReadableAs(etcd, k, recorded[k])
  }

  ghost predicate ReadableAs(etcd: map<Key, Body>, key: Key, entryType: string)
  {
    && entryType in {"interface", "linuxif", "l2bd", "l2xc", "l3vrf", "arp"}
    && (key in etcd ==> EntryType(etcd[key]) == entryType)
  }

  /** The entries that etcd has under the given keys. */
  function Found(etcd: map<Key, Body>, keys: set<Key>): map<Key, KV>
  {
    map k | k in etcd && k in keys :: KV(k, etcd[k])
  }

  lemma FoundOneMore(m: map<Key, KV>, etcd: map<Key, Body>, done: set<Key>, k: Key)
    ensures k in etcd ==> m + Found(etcd, done + {k}) == (m + Found(etcd, done))[k := KV(k, etcd[k])]
    ensures k !in etcd ==> Found(etcd, done + {k}) == Found(etcd, done)
  {}

  lemma FoundUnion(etcd: map<Key, Body>, a: set<Key>, b: set<Key>)
    ensures Found(etcd, a) + Found(etcd, b) == Found(etcd, a + b)
  {}

  /** All keys that the given entities have recorded. */
  ghost function AllRecorded(order: seq<string>, status: map<string, Status>): set<Key>
    decreases order
  {
    if order == [] then {}
    else AllRecorded(order[..|order| - 1], status) + RecordedOf(status, order[|order| - 1]).Keys
  }

  /** The entries that a step adds are of their keys' types. */
  ghost predicate WellTyped(s: Step)
  {
    match s
    case Add(kv) => TypedByKey(kv)
    case AddThrough(kvs) => forall kv | kv in kvs :: TypedByKey(kv)
    case Fail(_) => true
  }

  /** An entity that renders without error adds well-typed entries. */
  ghost predicate PlanTyped(p: Plan) { Succeeds(p) ==> forall s | s in p.steps :: WellTyped(s) }

  ghost predicate RecordTyped(recorded: map<Key, string>) { forall k | k in recorded :: recorded[k] == KeyType(k) }

  /** The record has exactly the keys of the level, with their types. */
  ghost predicate Recorded(l: Level)
  {
    l.recorded.Keys == l.entries.Keys && RecordTyped(l.recorded) && Keyed(l.entries)
  }

  lemma {:induction false} AddAllRecords(l: Level, kvs: seq<KV>)
    requires l.recorded == map[] && Keyed(l.entries) && forall kv | kv in kvs :: TypedByKey(kv)
    ensures var m := AddAll(l, kvs);
            m.entries.Keys == l.entries.Keys + m.recorded.Keys && RecordTyped(m.recorded) && Keyed(m.entries)
    decreases kvs
  {
    if kvs != [] {
      AddAllRecords(l, kvs[..|kvs| - 1]);
      TypedEntryType(kvs[|kvs| - 1]);
    }
  }

  /** What an entity records is what it adds, also through temporary records. */
  lemma {:induction false} ExecAllRecords(l: Level, steps: seq<Step>)
    requires Recorded(l) && forall s | s in steps :: WellTyped(s)
    ensures Recorded(ExecAll(l, steps))
    decreases steps
  {
    if steps != [] && !steps[0].Fail? {
      assert WellTyped(steps[0]);
      match steps[0] {
        case Add(kv) => TypedEntryType(kv);
        case AddThrough(kvs) => AddAllRecords(Level(l.entries, map[]), kvs);
      }
      ExecAllRecords(Exec(l, steps[0]), steps[1..]);
    }
  }

  /** An entity's contribution is covered by the record in its status. */
  lemma ContributionIsRecorded(p: Plan)
    requires PlanTyped(p)
    ensures Keyed(Contribution(p)) && (!p.valid ==> Contribution(p) == map[])
    ensures p.valid ==> RecordTyped(NewStatus(p).recorded) && Contribution(p).Keys == NewStatus(p).recorded.Keys
  {
    if Succeeds(p) { ExecAllRecords(EMPTY, p.steps); }
  }

  /** A key is rendered exactly if an entity that rendered without error adds it. */
  lemma {:induction false} RenderingHasSuccessfulKeys(order: seq<string>, plans: map<string, Plan>, k: Key)
    requires forall n | n in order :: n in plans
    ensures k in Rendering(order, plans) <==>
            exists n :: n in order && Succeeds(plans[n]) && k in ExecAll(EMPTY, plans[n].steps).entries
    decreases order
  {
    if order != [] {
      var init, last := order[..|order| - 1], order[|order| - 1];
      RenderingHasSuccessfulKeys(init, plans, k);
      assert order == init + [last];
      if Succeeds(plans[last]) && k in ExecAll(EMPTY, plans[last].steps).entries { assert last in order; }
    }
  }

  /** Where several entities add a key, the last one's entry stands. */
  lemma {:induction false} LastEntityWins(order: seq<string>, plans: map<string, Plan>, i: nat, k: Key)
    requires forall n | n in order :: n in plans
    requires i < |order| && k in Contribution(plans[order[i]])
    requires forall j | i < j < |order| :: k !in Contribution(plans[order[j]])
    ensures k in Rendering(order, plans) && Rendering(order, plans)[k] == Contribution(plans[order[i]])[k]
    decreases order
  {
    var init := order[..|order| - 1];
    if i < |init| {
      assert forall n | n in init :: n in order;
      LastEntityWins(init, plans, i, k);
    }
  }

  lemma {:induction false} RenderingIsRecorded(order: seq<string>, plans: map<string, Plan>,
                                               status: map<string, Status>)
    requires forall n | n in order :: n in plans && PlanTyped(plans[n])
    requires forall n | n in order :: Contribution(plans[n]).Keys <= RecordedOf(status, n).Keys
    ensures Keyed(Rendering(order, plans)) && Rendering(order, plans).Keys <= AllRecorded(order, status)
    decreases order
  {
    if order != [] {
      var init, last := order[..|order| - 1], order[|order| - 1];
      assert last in order && forall n | n in init :: n in order;
      RenderingIsRecorded(init, plans, status);
      ContributionIsRecorded(plans[last]);
    }
  }

  /** After a job every record is typed, and covers what its entity contributed. */
  lemma JobIsRecorded(job: Job, before: map<string, Status>)
    requires job.Valid() && AllTyped(before)
    ensures var after := StatusesAfter(job.order, job.plans, before);
            && AllTyped(after)
            && forall n | n in job.order :: Contribution(job.plans[n]).Keys <= RecordedOf(after, n).Keys
  {
    var after := StatusesAfter(job.order, job.plans, before);
    forall n | n in after ensures RecordTyped(after[n].recorded) {
      StatusesAreSeparate(job.order, job.plans, before, n);
      if n in job.order { ContributionIsRecorded(job.plans[n]); }
    }
    forall n | n in job.order ensures Contribution(job.plans[n]).Keys <= RecordedOf(after, n).Keys {
      StatusesAreSeparate(job.order, job.plans, before, n);
      ContributionIsRecorded(job.plans[n]);
    }
  }

  lemma RecordIsReadable(s: State, recorded: map<Key, string>)
    requires Agree(s) && Keyed(s.cache) && RecordTyped(recorded)
    ensures Readable(s.etcd, recorded)
  {
    forall k | k in recorded && k in s.etcd ensures EntryType(s.etcd[k]) == KeyType(k) {
      TypedEntryType(s.cache[k]);
    }
  }

  lemma FoundIsCache(s: State, keys: set<Key>)
    requires Agree(s) && Keyed(s.cache) && s.cache.Keys <= keys
    ensures Found(s.etcd, keys) == s.cache
  {}

  /**
   * The cache and etcd agree and hold the job's rendering, up to Equal; the entities have recorded what a restart
   * needs to rebuild the cache, and their statuses say whether they were rendered.
   */
  ghost predicate InSync(s: State, job: Job, status: map<string, Status>)
    requires job.Valid()
  {
    && Agree(s) && PointwiseEqual(s.cache, job.Result())
    && (forall n | n in job.order :: Readable(s.etcd, RecordedOf(status, n)))
    && Found(s.etcd, AllRecorded(job.order, status)) == s.cache
    && forall n | n in job.order && job.plans[n].valid :: n in status && status[n] == NewStatus(job.plans[n])
  }

  /**
   * Restart round trip: when a job has been rendered and committed, reading the recorded keys back from
   * etcd succeeds and rebuilds the keys and values of the cache.
   */
  lemma ReloadRebuildsCache(s: State, job: Job, before: map<string, Status>)
    requires Agree(s) && Keyed(s.cache) && job.Valid() && AllTyped(before)
    ensures InSync(Committed(s, job.Result()), job, StatusesAfter(job.order, job.plans, before))
  {
    var s', after := Committed(s, job.Result()), StatusesAfter(job.order, job.plans, before);
    JobIsRecorded(job, before);
    RenderingIsRecorded(job.order, job.plans, after);
    CommitMatchesRendering(s, job.Result());
    CommitKeepsAgreement(s, job.Result());
    forall n | n in job.order ensures Readable(s'.etcd, RecordedOf(after, n)) {
      RecordIsReadable(s', RecordedOf(after, n));
    }
    FoundIsCache(s', AllRecorded(job.order, after));
    forall n | n in job.order && job.plans[n].valid ensures n in after && after[n] == NewStatus(job.plans[n]) {
      StatusesAreSeparate(job.order, job.plans, before, n);
    }
  }
}
