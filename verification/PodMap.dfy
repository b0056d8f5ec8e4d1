/** Where pods run: the merge of configured and discovered placements, networkpodnodemap.go. */
module PodMap {

  datatype Placement = Placement(pod: string, node: string)

  type Placements = map<string, Placement>

  /** Every placement is filed under its own pod. */
  ghost predicate ByPod(m: Placements) { forall p | p in m :: m[p].pod == p }

  function Only(m: Placements, pods: set<string>): Placements { map p | p in m && p in pods :: m[p] }

  lemma OneMore(base: Placements, m: Placements, done: set<string>, p: string)
    requires p in m
    ensures base + Only(m, done + {p}) == (base + Only(m, done))[p := m[p]]
  {}

  /** A map as large as another that contains it is the other. */
  lemma SameSizeInclusion(a: Placements, b: Placements)
    requires |a| == |b| && forall p | p in a :: p in b && b[p] == a[p]
    ensures a == b
  {
    assert a.Keys <= b.Keys;
    assert a.Keys + (b.Keys - a.Keys) == b.Keys;
    assert |b.Keys - a.Keys| == 0;
    assert a.Keys == b.Keys;
  }

  lemma ByPodUnion(a: Placements, b: Placements)
    requires ByPod(a) && ByPod(b)
    ensures ByPod(a + b) && map[] + a + b == a + b
  {}

  lemma DiffersExactlyIf(a: Placements, b: Placements)
    requires |a| == |b|
    ensures a == b <==> forall p | p in a :: p in b && b[p] == a[p]
  {
    if forall p | p in a :: p in b && b[p] == a[p] { SameSizeInclusion(a, b); }
  }

  class PlacementManager {
    /** The configured placements and the ones in effect. */
    var configured: Placements
    var effective: Placements

    ghost predicate Valid()
      reads this
    {
      ByPod(configured) && ByPod(effective)
    }

    /** A placement is configured: it is in effect at once. */
    method Place(p: Placement)
      requires Valid()
      modifies this
      ensures Valid() && configured == old(configured)[p.pod := p] && effective == old(effective)[p.pod := p]
    {
      configured := configured[p.pod := p];
      effective := effective[p.pod := p];
    }

    /** A pod is no longer configured; the placement in effect stays until the next synchronisation. */
    method Unplace(pod: string)
      requires Valid()
      modifies `configured
      ensures Valid() && configured == old(configured) - {pod}
    {
      configured := configured - {pod};
    }

    /** Copies one map over another, in any order. */
    static method CopyInto(base: Placements, m: Placements) returns (r: Placements)
      ensures r == base + m
    {
      r := base;
      var pods := m.Keys;
      ghost var done: set<string> := {};
      assert base + Only(m, {}) == base;
      while pods != {}
        invariant pods <= m.Keys && done == m.Keys - pods && r == base + Only(m, done)
      {
        var p :| p in pods;
        OneMore(base, m, done, p);
        r := r[p := m[p]];
        pods := pods - {p};
        done := done + {p};
      }
      assert Only(m, done) == m;
    }

    /** The loop of the change detector: is some placement of temp missing from m, or different there? */
    static method SomeDiffers(temp: Placements, m: Placements) returns (differs: bool)
      requires ByPod(temp)
      ensures !differs <==> forall p | p in temp :: p in m && m[p] == temp[p]
    {
      differs := false;
      var pods := temp.Keys;
      while pods != {}
        invariant pods <= temp.Keys
        invariant !differs <==> forall p | p in temp.Keys - pods :: p in m && m[p] == temp[p]
      {
        var p :| p in pods;
        var entry := temp[p];
        if entry.pod !in m || m[entry.pod] != entry { differs := true; }
        pods := pods - {p};
      }
    }

    /**
     * Lays the discovered placements over the configured ones, and tells whether rendering is
     * required, which is exactly when the placements in effect have changed.
     */
    method Sync(discovered: Placements) returns (required: bool)
      requires Valid() && ByPod(discovered)
      modifies `effective
      ensures Valid() && effective == configured + discovered
      ensures required <==> effective != old(effective)
    {
      var temp := CopyInto(map[], effective);
      ghost var before := effective;
      assert temp == before;
      effective := map[];
      effective := CopyInto(effective, configured);
      effective := CopyInto(effective, discovered);
      ByPodUnion(configured, discovered);
      required := |temp| != |effective|;
      if !required {
        required := SomeDiffers(temp, effective);
        DiffersExactlyIf(before, effective);
      }
    }
  }
}
