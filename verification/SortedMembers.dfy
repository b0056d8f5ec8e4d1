/** Bridge members kept sorted by name, plugins/controller/vppagent/vpp_agent.go. */
module SortedMembers {
  import opened Text
  import opened Entries

  ghost predicate Sorted(ms: seq<Member>)
  {
    forall i, j | 0 <= i < j < |ms| :: LessEq(ms[i].name, ms[j].name)
  }

  /** Insertion before the first greater name. */
  function Insert(ms: seq<Member>, m: Member): seq<Member>
  {
    if ms == [] || Less(m.name, ms[0].name) then [m] + ms else [ms[0]] + Insert(ms[1..], m)
  }

  function SortAll(ms: seq<Member>): seq<Member>
  {
    if ms == [] then [] else Insert(SortAll(ms[..|ms| - 1]), ms[|ms| - 1])
  }

  lemma {:induction false} InsertKeepsMembers(ms: seq<Member>, m: Member)
    ensures multiset(Insert(ms, m)) == multiset(ms) + multiset{m}
  {
    if ms != [] && !Less(m.name, ms[0].name) {
      InsertKeepsMembers(ms[1..], m);
      assert ms == [ms[0]] + ms[1..];
    }
  }

  lemma NotLess(a: string, b: string)
    ensures !Less(a, b) <==> LessEq(b, a)
  {
    LessTotal(a, b);
    LessIrreflexive(a);
    if Less(a, b) && Less(b, a) { LessTransitive(a, b, a); }
  }

  lemma LessEqTransitive(a: string, b: string, c: string)
    requires LessEq(a, b) && LessEq(b, c)
    ensures LessEq(a, c)
  {
    if Less(a, b) && Less(b, c) { LessTransitive(a, b, c); }
  }

  /** A least member in front of a sorted list. */
  lemma SortedCons(m: Member, ms: seq<Member>)
    requires Sorted(ms) && (ms != [] ==> LessEq(m.name, ms[0].name))
    ensures Sorted([m] + ms)
  {
    var r := [m] + ms;
    forall i, j | 0 <= i < j < |r| ensures LessEq(r[i].name, r[j].name) {
      if i == 0 && j > 1 { LessEqTransitive(m.name, ms[0].name, ms[j - 1].name); }
    }
  }

  lemma {:induction false} InsertKeepsSorted(ms: seq<Member>, m: Member)
    requires Sorted(ms)
    ensures Sorted(Insert(ms, m))
  {
    if ms == [] || Less(m.name, ms[0].name) {
      SortedCons(m, ms);
    } else {
      NotLess(m.name, ms[0].name);
      InsertKeepsSorted(ms[1..], m);
      SortedCons(ms[0], Insert(ms[1..], m));
    }
  }

  lemma {:induction false} SortAllSorts(ms: seq<Member>)
    ensures Sorted(SortAll(ms)) && multiset(SortAll(ms)) == multiset(ms)
  {
    if ms != [] {
      var init, last := ms[..|ms| - 1], ms[|ms| - 1];
      SortAllSorts(init);
      InsertKeepsSorted(SortAll(init), last);
      InsertKeepsMembers(SortAll(init), last);
      LastMember(ms);
    }
  }

  lemma LastMember(ms: seq<Member>)
    requires ms != []
    ensures multiset(ms) == multiset(ms[..|ms| - 1]) + multiset{ms[|ms| - 1]}
  {
    assert ms == ms[..|ms| - 1] + [ms[|ms| - 1]];
  }

  /** Members of one name are the same member. */
  ghost predicate NamesIdentify(ms: seq<Member>)
  {
    forall a, b | a in ms && b in ms && a.name == b.name :: a == b
  }

  lemma HeadIsLeast(a: seq<Member>, m: Member)
    requires Sorted(a) && m in a
    ensures LessEq(a[0].name, m.name)
  {}

  lemma SameHead(a: seq<Member>, b: seq<Member>)
    requires Sorted(a) && Sorted(b) && multiset(a) == multiset(b) && NamesIdentify(a) && a != [] && b != []
    ensures a[0] == b[0]
  {
    assert b[0] in multiset(a) && a[0] in multiset(b);
    HeadIsLeast(a, b[0]);
    HeadIsLeast(b, a[0]);
    NotLess(a[0].name, b[0].name);
  }

  lemma SameTails(a: seq<Member>, b: seq<Member>)
    requires a != [] && b != [] && a[0] == b[0] && multiset(a) == multiset(b)
    ensures multiset(a[1..]) == multiset(b[1..])
  {
    assert a == [a[0]] + a[1..] && b == [b[0]] + b[1..];
    assert multiset(a[1..]) == multiset(a) - multiset{a[0]};
    assert multiset(b[1..]) == multiset(b) - multiset{b[0]};
  }

  lemma TailNames(a: seq<Member>)
    requires NamesIdentify(a) && a != []
    ensures NamesIdentify(a[1..])
  {
    assert forall x | x in a[1..] :: x in a;
  }

  lemma {:induction false} SortedIsUnique(a: seq<Member>, b: seq<Member>)
    requires Sorted(a) && Sorted(b) && multiset(a) == multiset(b) && NamesIdentify(a)
    ensures a == b
  {
    assert |a| == |multiset(a)| == |multiset(b)| == |b|;
    if a != [] {
      SameHead(a, b);
      SameTails(a, b);
      TailNames(a);
      SortedIsUnique(a[1..], b[1..]);
      assert a == [a[0]] + a[1..] && b == [b[0]] + b[1..];
    }
  }

  /** Sorting gives one result for all orders in which the members may come. */
  lemma SortAllIsCanonical(a: seq<Member>, b: seq<Member>)
    requires multiset(a) == multiset(b) && NamesIdentify(a)
    ensures SortAll(a) == SortAll(b)
  {
    SortAllSorts(a);
    SortAllSorts(b);
    forall x | x in SortAll(a) ensures x in a { assert x in multiset(SortAll(a)); }
    SortedIsUnique(SortAll(a), SortAll(b));
  }

  /** The sorted list of a bag of members. */
  ghost function SortedOf(bag: multiset<Member>): seq<Member>
    decreases |bag|
  {
    if bag == multiset{} then [] else
      var m :| m in bag;
      Insert(SortedOf(bag - multiset{m}), m)
  }

  lemma {:induction false} SortedOfSorts(bag: multiset<Member>)
    ensures Sorted(SortedOf(bag)) && multiset(SortedOf(bag)) == bag
    decreases |bag|
  {
    if bag != multiset{} {
      var m :| m in bag && SortedOf(bag) == Insert(SortedOf(bag - multiset{m}), m);
      SortedOfSorts(bag - multiset{m});
      InsertKeepsSorted(SortedOf(bag - multiset{m}), m);
      InsertKeepsMembers(SortedOf(bag - multiset{m}), m);
    }
  }

  /** However the members of a bag come, sorting them gives the sorted list of the bag. */
  lemma SortAllOfBag(a: seq<Member>)
    requires NamesIdentify(a)
    ensures SortAll(a) == SortedOf(multiset(a))
  {
    SortAllSorts(a);
    SortedOfSorts(multiset(a));
    forall x | x in SortAll(a) ensures x in a { assert x in multiset(SortAll(a)); }
    SortedIsUnique(SortAll(a), SortedOf(multiset(a)));
  }

  lemma TwiceCounts(ms: seq<Member>, i: nat, j: nat)
    requires i < j < |ms|
    ensures ms[i] == ms[j] ==> multiset(ms)[ms[j]] >= 2
  {
    assert ms == ms[..j] + [ms[j]] + ms[j + 1..];
    assert ms[i] in ms[..j];
    assert multiset(ms) == multiset(ms[..j]) + multiset{ms[j]} + multiset(ms[j + 1..]);
  }

  /** In a list where no member stands twice and names identify members, names are distinct. */
  lemma NamesAreDistinct(ms: seq<Member>, i: nat, j: nat)
    requires NamesIdentify(ms) && (forall m :: multiset(ms)[m] <= 1) && i < j < |ms|
    ensures ms[i].name != ms[j].name
  {
    TwiceCounts(ms, i, j);
    assert ms[i] in ms && ms[j] in ms;
  }

  /** Go's sort.Search for the first member with a greater name. */
  method Search(data: seq<Member>, name: string) returns (index: nat)
    requires Sorted(data)
    ensures index <= |data|
    ensures forall k | 0 <= k < index :: !Less(name, data[k].name)
    ensures forall k | index <= k < |data| :: Less(name, data[k].name)
  {
    var i, j := 0, |data|;
    while i < j
      invariant 0 <= i <= j <= |data|
      invariant forall k | 0 <= k < i :: !Less(name, data[k].name)
      invariant forall k | j <= k < |data| :: Less(name, data[k].name)
    {
      var h := (i + j) / 2;
      if !Less(name, data[h].name) {
        forall k | i <= k <= h ensures !Less(name, data[k].name) {
          if k < h {
            NotLess(name, data[h].name);
            LessEqTransitive(data[k].name, data[h].name, name);
            NotLess(name, data[k].name);
          }
        }
        i := h + 1;
      } else {
        forall k | h <= k < j ensures Less(name, data[k].name) {
          if k > h && data[k].name != data[h].name { LessTransitive(name, data[h].name, data[k].name); }
        }
        j := h;
      }
    }
    index := i;
  }

  lemma {:induction false} InsertAt(data: seq<Member>, m: Member, index: nat)
    requires index <= |data|
    requires forall k | 0 <= k < index :: !Less(m.name, data[k].name)
    requires index < |data| ==> Less(m.name, data[index].name)
    ensures Insert(data, m) == data[..index] + [m] + data[index..]
  {
    if index > 0 {
      InsertAt(data[1..], m, index - 1);
      assert data[1..][..index - 1] == data[1..index] && data[1..][index - 1..] == data[index..];
      assert [data[0]] + data[1..index] == data[..index];
    } else if data == [] {
      assert data[..0] + [m] + data[0..] == [m];
    }
  }

  /** Inserts a member by binary search. */
  method InsertSorted(data: seq<Member>, el: Member) returns (r: seq<Member>)
    requires Sorted(data)
    ensures r == Insert(data, el) && Sorted(r)
  {
    var index := Search(data, el.name);
    r := data[..index] + [el] + data[index..];
    InsertAt(data, el, index);
    InsertKeepsSorted(data, el);
  }

  /** The members of a new bridge, sorted one insertion at a time. */
  method SortMembers(ifaces: seq<Member>) returns (r: seq<Member>)
    ensures r == SortAll(ifaces)
  {
    r := [];
    for i := 0 to |ifaces|
      invariant r == SortAll(ifaces[..i]) && Sorted(r)
    {
      assert ifaces[..i + 1][..i] == ifaces[..i];
      r := InsertSorted(r, ifaces[i]);
    }
    assert ifaces[..|ifaces|] == ifaces;
  }
}
