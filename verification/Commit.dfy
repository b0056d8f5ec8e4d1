/** The value of a commit: how a rendering changes the RAM cache and etcd. */
module Commit {
  import opened Entries

  datatype State = State(cache: map<Key, KV>, etcd: map<Key, Body>)

  /** The cache and etcd hold the same keys and values. */
  ghost predicate Agree(s: State) { s.etcd == Bodies(s.cache) }

  /** Keys that are in the cache and no longer rendered. */
  function Deleted(before: map<Key, KV>, after: map<Key, KV>): set<Key> { before.Keys - after.Keys }

  /** Keys that are new or whose entry differs from the cached one. */
  function Written(before: map<Key, KV>, after: map<Key, KV>): set<Key> { after.Keys - Unchanged(before, after) }

  /** Keys whose entry equals the cached one. */
  function Unchanged(before: map<Key, KV>, after: map<Key, KV>): set<Key>
  {
    set k | k in after && k in before && Equal(before[k], after[k])
  }

  function Only(m: map<Key, KV>, keys: set<Key>): map<Key, KV> { map k | k in m && k in keys :: m[k] }

  /** A commit of rendering r whose puts all succeed. */
  function Committed(s: State, r: map<Key, KV>): State
  {
    var deleted, written := Deleted(s.cache, r), Only(r, Written(s.cache, r));
    State(s.cache - deleted + written, s.etcd - deleted + Bodies(written))
  }

  /** A commit of rendering r that stopped at a failed put, when the given puts had reached etcd. */
  function Stopped(s: State, r: map<Key, KV>, landed: set<Key>): State
  {
    var deleted := Deleted(s.cache, r);
    State(s.cache - deleted, s.etcd - deleted + Bodies(Only(r, landed)))
  }

  /** After a successful commit the cache has exactly the rendered keys, each with an equal entry. */
  lemma CommitMatchesRendering(s: State, r: map<Key, KV>)
    requires Keyed(s.cache) && Keyed(r)
    ensures Keyed(Committed(s, r).cache) && PointwiseEqual(Committed(s, r).cache, r)
  {
    var c := Committed(s, r).cache;
    assert c.Keys == r.Keys;
    forall k | k in c ensures Equal(c[k], r[k]) {
      if k in Written(s.cache, r) { EqualReflexiveIfKnown(r[k]); }
    }
  }

  /** A commit leaves entries under their own keys, whether it succeeds or stops. */
  lemma CommitKeepsKeyed(s: State, r: map<Key, KV>, written: bool, landed: set<Key>)
    requires Keyed(s.cache) && Keyed(r)
    ensures Keyed(Apply(s, Ending(r, written, landed)).cache)
  {}

  /** The keys on which the cache and etcd differ. */
  ghost predicate Differs(s: State, k: Key)
  {
    (k in s.cache) != (k in s.etcd) || (k in s.cache && s.cache[k].body != s.etcd[k])
  }

  /** A commit issues an operation for this key. */
  ghost predicate Touched(s: State, r: map<Key, KV>, k: Key)
  {
    k in Deleted(s.cache, r) || k in Written(s.cache, r)
  }

  lemma AgreeIsNoDifference(s: State)
    ensures Agree(s) <==> forall k :: !Differs(s, k)
  {
    if Agree(s) {
      forall k ensures !Differs(s, k) { assert k in s.etcd <==> k in Bodies(s.cache); }
    }
    if forall k :: !Differs(s, k) {
      forall k ensures k in s.etcd <==> k in Bodies(s.cache) { assert !Differs(s, k); }
      forall k | k in s.etcd ensures s.etcd[k] == Bodies(s.cache)[k] { assert !Differs(s, k); }
      assert s.etcd == Bodies(s.cache);
    }
  }

  /** A successful commit removes the difference at exactly the keys that it touches. */
  lemma CommitRepairsTouched(s: State, r: map<Key, KV>, k: Key)
    ensures Differs(Committed(s, r), k) <==> Differs(s, k) && !Touched(s, r, k)
  {}

  /**
   * From any state, however the cache and etcd came apart, a successful commit makes them agree
   * exactly if it deletes or writes every key on which they differ.
   */
  lemma AgreesExactlyIfTouched(s: State, r: map<Key, KV>)
    ensures Agree(Committed(s, r)) <==> forall k | Differs(s, k) :: Touched(s, r, k)
  {
    AgreeIsNoDifference(Committed(s, r));
    forall k ensures Differs(Committed(s, r), k) <==> Differs(s, k) && !Touched(s, r, k) {
      CommitRepairsTouched(s, r, k);
    }
  }

  /** A successful commit keeps the agreement of cache and etcd. */
  lemma CommitKeepsAgreement(s: State, r: map<Key, KV>)
    requires Agree(s)
    ensures Agree(Committed(s, r))
  {
    AgreesExactlyIfTouched(s, r);
    AgreeIsNoDifference(s);
  }

  /** Only keys whose put reached etcd can differ after a commit that stopped. */
  lemma StoppedDiffersOnlyWhereLanded(s: State, r: map<Key, KV>, landed: set<Key>, k: Key)
    requires Agree(s) && landed <= Written(s.cache, r) && Differs(Stopped(s, r, landed), k)
    ensures k in landed
  {
    AgreeIsNoDifference(s);
    assert !Differs(s, k);
  }

  /**
   * A commit that stopped at a failed put, followed by a successful commit of an equal rendering, ends
   * in agreement on exactly the rendered keys, whichever puts of the first commit had reached etcd.
   */
  lemma RetryRepairs(s: State, r: map<Key, KV>, landed: set<Key>, r': map<Key, KV>)
    requires Agree(s) && Keyed(s.cache) && Keyed(r) && Keyed(r')
    requires landed <= Written(s.cache, r) && PointwiseEqual(r, r')
    ensures var s' := Committed(Stopped(s, r, landed), r');
            Agree(s') && PointwiseEqual(s'.cache, r') && s'.etcd.Keys == r'.Keys
  {
    var t := Stopped(s, r, landed);
    forall k | Differs(t, k) ensures Touched(t, r', k) {
      StoppedDiffersOnlyWhereLanded(s, r, landed, k);
      StillWritten(s, r, landed, r', k);
    }
    AgreesExactlyIfTouched(t, r');
    CommitMatchesRendering(t, r');
  }

  lemma StillWritten(s: State, r: map<Key, KV>, landed: set<Key>, r': map<Key, KV>, k: Key)
    requires k in Written(s.cache, r) && PointwiseEqual(r, r')
    ensures k in Written(Stopped(s, r, landed).cache, r')
  {
    var t := Stopped(s, r, landed);
    if k in t.cache && Equal(t.cache[k], r'[k]) {
      EqualSymmetric(r[k], r'[k]);
      EqualTransitive(t.cache[k], r'[k], r[k]);
    }
  }

  /** If the configuration changes before the retry, a successful commit can leave etcd apart from the cache. */
  lemma ChangedRetryNeedNotRepair(old_: KV, new_: KV)
    requires old_.key == new_.key && TypedByKey(old_) && TypedByKey(new_) && !Equal(old_, new_)
    ensures var k := old_.key;
            var s := State(map[k := old_], map[k := old_.body]);
            var t := Stopped(s, map[k := new_], {k});
            Agree(s) && {k} <= Written(s.cache, map[k := new_]) && !Agree(Committed(t, map[k := old_]))
  {
    var k := old_.key;
    var s := State(map[k := old_], map[k := old_.body]);
    assert s.etcd == Bodies(s.cache);
    var t := Stopped(s, map[k := new_], {k});
    EqualReflexiveIfKnown(old_);
    EqualIsSameMeaning(old_, new_);
    assert Differs(t, k);
    AgreesExactlyIfTouched(t, map[k := old_]);
  }

  /** An equal rendering committed again issues nothing. */
  lemma RecommitIssuesNothing(s: State, r: map<Key, KV>, r': map<Key, KV>)
    requires Keyed(s.cache) && Keyed(r) && PointwiseEqual(r, r')
    ensures var c := Committed(s, r).cache; Deleted(c, r') == {} && Written(c, r') == {}
    ensures Committed(Committed(s, r), r') == Committed(s, r)
  {
    CommitMatchesRendering(s, r);
    var c := Committed(s, r).cache;
    forall k | k in r' ensures k in c && Equal(c[k], r'[k]) { EqualTransitive(c[k], r[k], r'[k]); }
    NothingTouched(Committed(s, r), r');
  }

  lemma NothingTouched(s: State, r: map<Key, KV>)
    requires s.cache.Keys == r.Keys && forall k | k in r :: Equal(s.cache[k], r[k])
    ensures Deleted(s.cache, r) == {} && Written(s.cache, r) == {} && Committed(s, r) == s
  {
    assert Only(r, {}) == map[];
  }

  /**
   * What changes the cache and etcd between restarts: a commit, a commit that stops at a failed put when some puts had
   * landed, or an entity deleted with its recorded keys.
   */
  datatype Event =
    | Commit(rendering: map<Key, KV>)
    | Stop(rendering: map<Key, KV>, landed: set<Key>)
    | Remove(keys: set<Key>)

  function Apply(s: State, e: Event): State
  {
    match e
    case Commit(r) => Committed(s, r)
    case Stop(r, landed) => Stopped(s, r, landed)
    case Remove(keys) => State(s.cache - keys, s.etcd - keys)
  }

  /** How the commit of a rendering ends. */
  function Ending(r: map<Key, KV>, written: bool, landed: set<Key>): Event
  {
    if written then Commit(r) else Stop(r, landed)
  }

  lemma RemoveKeepsAgreement(s: State, keys: set<Key>)
    ensures Agree(s) ==> Agree(Apply(s, Remove(keys)))
  {
    assert Bodies(s.cache - keys) == Bodies(s.cache) - keys;
  }

  function Run(s: State, es: seq<Event>): State
  {
    if es == [] then s else Apply(Run(s, es[..|es| - 1]), es[|es| - 1])
  }

  /** A commit whose puts all succeed, or a deletion. */
  ghost predicate WellFormed(e: Event) { !e.Stop? && (e.Commit? ==> Keyed(e.rendering)) }

  /** Over every run with successful puts, the cache equals etcd at every transaction boundary. */
  lemma {:induction false} RunKeepsAgreement(s: State, es: seq<Event>)
    requires Agree(s) && Keyed(s.cache) && forall e | e in es :: WellFormed(e)
    ensures Agree(Run(s, es)) && Keyed(Run(s, es).cache)
    ensures es != [] && es[|es| - 1].Commit? ==> PointwiseEqual(Run(s, es).cache, es[|es| - 1].rendering)
  {
    if es != [] {
      var e := es[|es| - 1];
      RunKeepsAgreement(s, es[..|es| - 1]);
      var t := Run(s, es[..|es| - 1]);
      assert WellFormed(e);
      if e.Commit? {
        CommitKeepsAgreement(t, e.rendering);
        CommitMatchesRendering(t, e.rendering);
      } else {
        RemoveKeepsAgreement(t, e.keys);
      }
    }
  }

  /** An event that can happen in a state: of the puts of a commit that stops, some have landed. */
  ghost predicate Possible(s: State, e: Event)
  {
    match e
    case Commit(r) => Keyed(r)
    case Stop(r, landed) => Keyed(r) && landed <= Written(s.cache, r)
    case Remove(_) => true
  }

  ghost predicate AllPossible(s: State, es: seq<Event>)
  {
    es == [] || (AllPossible(s, es[..|es| - 1]) && Possible(Run(s, es[..|es| - 1]), es[|es| - 1]))
  }

  lemma RunOne(s: State, e: Event)
    ensures Run(s, [e]) == Apply(s, e) && (AllPossible(s, [e]) <==> Possible(s, e))
  {
    assert [e][..0] == [];
  }

  lemma RunTwo(s: State, e: Event, f: Event)
    ensures Run(s, [e] + [f]) == Apply(Apply(s, e), f)
    ensures AllPossible(s, [e] + [f]) <==> Possible(s, e) && Possible(Apply(s, e), f)
  {
    RunOne(s, e);
    assert ([e] + [f])[..1] == [e];
  }

  lemma {:induction false} RunConcat(s: State, es: seq<Event>, fs: seq<Event>)
    ensures Run(s, es + fs) == Run(Run(s, es), fs)
    ensures AllPossible(s, es + fs) <==> AllPossible(s, es) && AllPossible(Run(s, es), fs)
    decreases fs
  {
    if fs == [] {
      assert es + fs == es;
    } else {
      var init := fs[..|fs| - 1];
      assert (es + fs)[..|es + fs| - 1] == es + init;
      RunConcat(s, es, init);
    }
  }

  /** The keys whose put landed in a commit that stopped, and that no later commit or deletion has touched. */
  ghost function Stale(s: State, es: seq<Event>): set<Key>
  {
    if es == [] then {} else StaleAfter(Run(s, es[..|es| - 1]), Stale(s, es[..|es| - 1]), es[|es| - 1])
  }

  ghost function StaleAfter(s: State, stale: set<Key>, e: Event): set<Key>
  {
    match e
    case Commit(r) => stale - Deleted(s.cache, r) - Written(s.cache, r)
    case Stop(r, landed) => stale - Deleted(s.cache, r) + landed
    case Remove(keys) => stale - keys
  }

  lemma StopDiffers(s: State, r: map<Key, KV>, landed: set<Key>, k: Key)
    requires Keyed(s.cache) && Keyed(r) && landed <= Written(s.cache, r)
    ensures Differs(Stopped(s, r, landed), k) <==> k in landed || (Differs(s, k) && k !in Deleted(s.cache, r))
  {
    if k in landed && k in s.cache { EqualIsSameMeaning(s.cache[k], r[k]); }
  }

  lemma StepDiffers(s: State, stale: set<Key>, e: Event, k: Key)
    requires Keyed(s.cache) && Possible(s, e) && (Differs(s, k) <==> k in stale)
    ensures Differs(Apply(s, e), k) <==> k in StaleAfter(s, stale, e)
  {
    match e
    case Commit(r) => CommitRepairsTouched(s, r, k);
    case Stop(r, landed) => StopDiffers(s, r, landed, k);
    case Remove(keys) =>
  }

  lemma {:induction false} RunKeepsKeyed(s: State, es: seq<Event>)
    requires Keyed(s.cache) && AllPossible(s, es)
    ensures Keyed(Run(s, es).cache)
  {
    if es != [] { RunKeepsKeyed(s, es[..|es| - 1]); }
  }

  /**
   * Over every run, with whatever puts failing: cache and etcd differ exactly at the keys whose put landed in a commit
   * that stopped and that have not been touched since.
   */
  lemma {:induction false} RunDiffersExactlyAt(s: State, es: seq<Event>, k: Key)
    requires Agree(s) && Keyed(s.cache) && AllPossible(s, es)
    ensures Differs(Run(s, es), k) <==> k in Stale(s, es)
  {
    if es == [] {
      AgreeIsNoDifference(s);
    } else {
      var init := es[..|es| - 1];
      RunDiffersExactlyAt(s, init, k);
      RunKeepsKeyed(s, init);
      StepDiffers(Run(s, init), Stale(s, init), es[|es| - 1], k);
    }
  }
}
