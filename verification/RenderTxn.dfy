/** The render transaction engine of plugins/controller/rendertxn.go. */
module RenderTxn {
  import opened Entries
  import opened Commit

  /** What the first loop of a commit works on. */
  datatype Work = Work(before: map<Key, KV>, cache: map<Key, KV>, etcd: map<Key, Body>,
                       deletes: multiset<Key>, after: map<Key, KV>)

  /** One key of the first loop: deleted if it is no longer rendered, dropped if it has not changed. */
  ghost function ReconcileStep(w: Work, key: Key): Work
    requires key in w.before
  {
    if key !in w.after then
      Work(w.before - {key}, w.cache - {key}, w.etcd - {key}, w.deletes + multiset{key}, w.after)
    else if Equal(w.before[key], w.after[key]) then w.(after := w.after - {key})
    else w
  }

  /** The work when the given keys are left. */
  ghost function Reconciling(w: Work, keys: set<Key>): Work
  {
    var gone := Deleted(w.before, w.after) - keys;
    Work(w.before - gone, w.cache - gone, w.etcd - gone, w.deletes + multiset(gone),
         w.after - (Unchanged(w.before, w.after) - keys))
  }

  lemma ReconcilingStarts(w: Work)
    ensures Reconciling(w, w.before.Keys) == w
  {
    var gone: set<Key> := {};
    assert Deleted(w.before, w.after) - w.before.Keys == gone;
    assert Unchanged(w.before, w.after) - w.before.Keys == gone;
    assert w.before - gone == w.before && w.cache - gone == w.cache;
    assert w.etcd - gone == w.etcd && w.after - gone == w.after;
  }

  lemma ReconcilingStep(w: Work, keys: set<Key>, key: Key)
    requires keys <= w.before.Keys && key in keys
    ensures key in Reconciling(w, keys).before
    ensures ReconcileStep(Reconciling(w, keys), key) == Reconciling(w, keys - {key})
  {
    var gone, same := Deleted(w.before, w.after) - keys, Unchanged(w.before, w.after) - keys;
    var gone', same' := Deleted(w.before, w.after) - (keys - {key}), Unchanged(w.before, w.after) - (keys - {key});
    if key !in w.after {
      assert gone' == gone + {key} && same' == same;
      MinusOneMore(w.before, gone, key);
      MinusOneMore(w.cache, gone, key);
      MinusOneMore(w.etcd, gone, key);
      CountOneMore(w.deletes, gone, key);
    } else if Equal(w.before[key], w.after[key]) {
      assert gone' == gone && same' == same + {key};
      MinusOneMore(w.after, same, key);
    } else {
      assert gone' == gone && same' == same;
    }
  }

  lemma ReconcilingEnds(w: Work)
    ensures var gone := Deleted(w.before, w.after);
            Reconciling(w, {}) == Work(w.before - gone, w.cache - gone, w.etcd - gone, w.deletes + multiset(gone),
                                       Only(w.after, Written(w.before, w.after)))
  {
    assert Deleted(w.before, w.after) - {} == Deleted(w.before, w.after);
    assert Unchanged(w.before, w.after) - {} == Unchanged(w.before, w.after);
    assert w.after - Unchanged(w.before, w.after) == Only(w.after, Written(w.before, w.after));
  }

  lemma MinusOneMore<V>(m: map<Key, V>, gone: set<Key>, k: Key)
    ensures m - gone - {k} == m - (gone + {k})
  {}

  lemma CountOneMore(n: multiset<Key>, gone: set<Key>, k: Key)
    requires k !in gone
    ensures n + multiset(gone) + multiset{k} == n + multiset(gone + {k})
  {}

  lemma OneMore(e: map<Key, Body>, a: map<Key, KV>, landed: set<Key>, k: Key)
    requires k in a && k !in landed && a[k].key == k
    ensures e + Bodies(Only(a, landed + {k})) == (e + Bodies(Only(a, landed)))[k := a[k].body]
  {}

  class Transactor {
    /** The RAM cache of entries, and etcd with the deletes and puts sent to it. */
    var vppEntries: map<Key, KV>
    var etcd: map<Key, Body>
    var deletes: multiset<Key>
    var puts: multiset<Key>

    /** How many puts have failed. */
    ghost var failures: nat

    /** The entries from before the transaction, and the rendered ones, one map a level. */
    var before: map<Key, KV>
    var after: seq<map<Key, KV>>

    constructor ()
      ensures vppEntries == map[] && etcd == map[] && deletes == puts == multiset{} && after == []
    {
      vppEntries, etcd, before, after, failures := map[], map[], map[], [], 0;
      deletes, puts := multiset{}, multiset{};
    }

    function Value(): State
      reads this
    {
      State(vppEntries, etcd)
    }

    /** Starts a transaction: everything in the cache is before it, and nothing is rendered yet. */
    method ConfigStart()
      requires Keyed(vppEntries)
      modifies `before, `after
      ensures before == vppEntries && after == [map[]]
    {
      before, after := map[], [map[]];
      var keys := vppEntries.Keys;
      while keys != {}
        invariant keys <= vppEntries.Keys && after == [map[]]
        invariant before == Only(vppEntries, vppEntries.Keys - keys)
      {
        var key :| key in keys;
        before := before[vppEntries[key].key := vppEntries[key]];
        keys := keys - {key};
      }
    }

    method EntityStart()
      requires after != []
      modifies `after
      ensures after == old(after) + [map[]]
    {
      after := after + [map[]];
    }

    /** Lays the entries of the top level over the level below, and drops the top level. */
    method EntityEnd()
      requires |after| >= 2
      modifies `after
      ensures after == old(after[..|after| - 2]) + [old(after[|after| - 2] + after[|after| - 1])]
    {
      var top := after[|after| - 1];
      var below := after[|after| - 2];
      var keys := top.Keys;
      while keys != {}
        invariant keys <= top.Keys && after == old(after)
        invariant below == after[|after| - 2] + Only(top, top.Keys - keys)
      {
        var key :| key in keys;
        below := below[key := top[key]];
        keys := keys - {key};
      }
      assert Only(top, top.Keys) == top;
      assert below == after[|after| - 2] + after[|after| - 1];
      after := after[..|after| - 2] + [below];
    }

    method EntityRemoveEntries()
      requires after != []
      modifies `after
      ensures after == old(after)[|old(after)| - 1 := map[]]
    {
      after := after[|after| - 1 := map[]];
    }

    /** Adds an entry to the top level, and records its key if the level does not have it yet. */
    method AddVppEntry(rendered: map<Key, string>, kv: KV) returns (recorded: map<Key, string>)
      requires after != []
      modifies `after
      ensures after == old(after)[|old(after)| - 1 := old(after)[|old(after)| - 1][kv.key := kv]]
      ensures recorded == if kv.key in old(after[|after| - 1]) then rendered
                          else rendered[kv.key := EntryType(kv.body)]
    {
      var top := after[|after| - 1];
      recorded := if kv.key in top then rendered else rendered[kv.key := EntryType(kv.body)];
      after := after[|after| - 1 := top[kv.key := kv]];
    }

    /** A put to etcd; one that fails may have reached etcd or not. */
    method WriteToEtcd(key: Key, body: Body) returns (ok: bool)
      modifies `etcd, `puts, `failures
      ensures puts == old(puts) + multiset{key} && failures == old(failures) + if ok then 0 else 1
      ensures ok ==> etcd == old(etcd)[key := body]
      ensures !ok ==> etcd == old(etcd) || etcd == old(etcd)[key := body]
    {
      ok := *;
      var landed: bool := *;
      puts := puts + multiset{key};
      if ok || landed { etcd := etcd[key := body]; }
      if !ok { failures := failures + 1; }
    }

    ghost function WorkValue(): Work
      requires |after| == 1
      reads this
    {
      Work(before, vppEntries, etcd, deletes, after[0])
    }

    method ReconcileKey(key: Key)
      requires |after| == 1 && key in before
      modifies `vppEntries, `etcd, `deletes, `before, `after
      ensures |after| == 1 && WorkValue() == ReconcileStep(old(WorkValue()), key)
    {
      if key !in after[0] {
        etcd := etcd - {key};
        deletes := deletes + multiset{key};
        vppEntries := vppEntries - {key};
        before := before - {key};
      } else {
        if Equal(before[key], after[0][key]) { after := [after[0] - {key}]; }
      }
    }

    /** The first loop of a commit: deletes what is no longer rendered and drops what has not changed. */
    method Reconcile()
      requires |after| == 1 && before == vppEntries
      modifies `vppEntries, `etcd, `deletes, `before, `after
      ensures vppEntries == old(vppEntries) - Deleted(old(before), old(after[0]))
      ensures etcd == old(etcd) - Deleted(old(before), old(after[0]))
      ensures deletes == old(deletes) + multiset(Deleted(old(before), old(after[0])))
      ensures after == [Only(old(after[0]), Written(old(before), old(after[0])))]
    {
      ghost var w := WorkValue();
      ReconcilingStarts(w);
      var keys := before.Keys;
      while keys != {}
        invariant keys <= w.before.Keys && |after| == 1 && WorkValue() == Reconciling(w, keys)
      {
        var key :| key in keys;
        ReconcilingStep(w, keys, key);
        ReconcileKey(key);
        keys := keys - {key};
      }
      ReconcilingEnds(w);
    }

    /** The second loop of a commit: writes the remaining entries until a put fails. */
    method WriteRemaining() returns (ok: bool, ghost landed: set<Key>, ghost tried: set<Key>)
      requires |after| == 1 && Keyed(after[0])
      modifies `etcd, `puts, `failures
      ensures failures == old(failures) + if ok then 0 else 1
      ensures landed <= tried <= after[0].Keys && etcd == old(etcd) + Bodies(Only(after[0], landed))
      ensures puts == old(puts) + multiset(tried) && (ok ==> landed == tried == after[0].Keys)
    {
      var keys := after[0].Keys;
      landed, tried := {}, {};
      assert etcd == etcd + Bodies(Only(after[0], {}));
      while keys != {}
        invariant keys <= after[0].Keys && landed == tried == after[0].Keys - keys && failures == old(failures)
        invariant etcd == old(etcd) + Bodies(Only(after[0], landed)) && puts == old(puts) + multiset(tried)
      {
        var key :| key in keys;
        keys := keys - {key};
        OneMore(old(etcd), after[0], landed, key);
        CountOneMore(old(puts), tried, key);
        ghost var before := etcd;
        ok := WriteToEtcd(after[0][key].key, after[0][key].body);
        tried := tried + {key};
        if !ok {
          if etcd != before { landed := landed + {key}; }
          return;
        }
        landed := landed + {key};
      }
      ok := true;
    }

    /** The third loop of a commit: the written entries enter the cache. */
    method UpdateCache()
      requires |after| == 1 && Keyed(after[0])
      modifies `vppEntries
      ensures vppEntries == old(vppEntries) + after[0]
    {
      var keys := after[0].Keys;
      while keys != {}
        invariant keys <= after[0].Keys
        invariant vppEntries == old(vppEntries) + Only(after[0], after[0].Keys - keys)
      {
        var key :| key in keys;
        var kv := after[0][key];
        vppEntries := vppEntries[kv.key := kv];
        keys := keys - {key};
      }
      assert Only(after[0], after[0].Keys) == after[0];
    }

    /** Ends a transaction: compares the rendering with the cache and updates etcd; it fails exactly if a put does. */
    method ConfigEnd() returns (ok: bool, ghost landed: set<Key>, ghost tried: set<Key>)
      requires |after| == 1 && before == vppEntries && Keyed(after[0])
      modifies this
      ensures failures == old(failures) + if ok then 0 else 1
      ensures landed <= tried <= Written(old(before), old(after[0])) && puts == old(puts) + multiset(tried)
      ensures deletes == old(deletes) + multiset(Deleted(old(before), old(after[0])))
      ensures ok ==> Value() == Committed(old(Value()), old(after[0])) && tried == Written(old(before), old(after[0]))
      ensures !ok ==> Value() == Stopped(old(Value()), old(after[0]), landed)
    {
      ghost var b, a := before, after[0];
      Reconcile();
      assert after[0].Keys == Written(b, a);
      ok, landed, tried := WriteRemaining();
      assert Only(after[0], landed) == Only(a, landed);
      if !ok { return; }
      UpdateCache();
    }

    /** Deletes what an entity has recorded as its own, from the cache and from etcd. */
    method DeleteRendered(rendered: map<Key, string>)
      modifies `vppEntries, `etcd, `deletes
      ensures Value() == Apply(old(Value()), Remove(rendered.Keys))
      ensures deletes == old(deletes) + multiset(rendered.Keys)
    {
      var keys := rendered.Keys;
      ghost var s, n, done := Value(), deletes, rendered.Keys - keys;
      assert done == {};
      RemoveNone(s);
      while keys != {}
        invariant keys <= rendered.Keys && done == rendered.Keys - keys
        invariant Value() == Apply(s, Remove(done))
        invariant deletes == n + multiset(done)
      {
        var key :| key in keys;
        RemoveOneMore(s, done, key);
        CountOneMore(n, done, key);
        DeleteOne(key);
        keys := keys - {key};
        done := done + {key};
      }
      assert done == rendered.Keys;
    }

    method DeleteOne(key: Key)
      modifies `vppEntries, `etcd, `deletes
      ensures Value() == State(old(vppEntries) - {key}, old(etcd) - {key})
      ensures deletes == old(deletes) + multiset{key}
    {
      etcd := etcd - {key};
      deletes := deletes + multiset{key};
      vppEntries := vppEntries - {key};
    }
  }

  lemma RemoveNone(s: State)
    ensures Apply(s, Remove({})) == s
  {}

  lemma RemoveOneMore(s: State, done: set<Key>, key: Key)
    ensures var t := Apply(s, Remove(done)); Apply(s, Remove(done + {key})) == State(t.cache - {key}, t.etcd - {key})
  {
    MinusOneMore(s.cache, done, key);
    MinusOneMore(s.etcd, done, key);
  }
}
