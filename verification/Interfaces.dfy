/** Pool numbers of interfaces over renders and restarts: interfaces.go and the reload of plugin_impl_controller.go. */
module Interfaces {
  import opened Unsigned
  import opened Runs
  import opened Addresses
  import opened Ipam
  import opened PoolNumbers

  /** The numbers that an interface has, by pool. */
  type Numbers = map<string, u32>

  /** The status of an interface: its pool numbers, and its addresses, the static ones among them. */
  datatype IfStatus = IfStatus(nums: Numbers, ips: seq<string>)

  /** The statuses of interfaces, by name. */
  type Table = map<string, IfStatus>

  /** The interface that each number of each pool was drawn for. */
  type Owners = map<(string, u32), string>

  ghost predicate Owned(owners: Owners, name: string, nums: Numbers)
  {
    forall p | p in nums :: (p, nums[p]) in owners && owners[(p, nums[p])] == name
  }

  ghost predicate TableOwned(owners: Owners, t: Table) { forall n | n in t :: Owned(owners, n, t[n].nums) }

  ghost predicate TablesOwned(owners: Owners, ts: map<string, Table>)
  {
    forall e | e in ts :: TableOwned(owners, ts[e])
  }

  /** Whatever has a number anywhere is its owner. */
  ghost predicate AllOwned(owners: Owners, ram: Table, status: map<string, Table>, stored: map<string, Table>)
  {
    TableOwned(owners, ram) && TablesOwned(owners, status) && TablesOwned(owners, stored)
  }

  ghost predicate HasIn(t: Table, name: string, pool: string, id: u32)
  {
    name in t && pool in t[name].nums && t[name].nums[pool] == id
  }

  /** An interface has a number: in memory, in the status of an entity, or in the datastore. */
  ghost predicate Has(ram: Table, status: map<string, Table>, stored: map<string, Table>, name: string, pool: string,
                      id: u32)
  {
    || HasIn(ram, name, pool, id)
    || (exists e :: e in status && HasIn(status[e], name, pool, id))
    || (exists e :: e in stored && HasIn(stored[e], name, pool, id))
  }

  /** No two interfaces have the same number of a pool. */
  ghost predicate NumbersUnshared(ram: Table, status: map<string, Table>, stored: map<string, Table>)
  {
    forall m, n, pool, id | Has(ram, status, stored, m, pool, id) && Has(ram, status, stored, n, pool, id) :: m == n
  }

  lemma HasIsOwner(owners: Owners, ram: Table, status: map<string, Table>, stored: map<string, Table>, n: string,
                   pool: string, id: u32)
    requires AllOwned(owners, ram, status, stored) && Has(ram, status, stored, n, pool, id)
    ensures (pool, id) in owners && owners[(pool, id)] == n
  {
    if HasIn(ram, n, pool, id) {
      assert Owned(owners, n, ram[n].nums);
    } else if e :| e in status && HasIn(status[e], n, pool, id) {
      assert TableOwned(owners, status[e]) && Owned(owners, n, status[e][n].nums);
    } else {
      var e :| e in stored && HasIn(stored[e], n, pool, id);
      assert TableOwned(owners, stored[e]) && Owned(owners, n, stored[e][n].nums);
    }
  }

  lemma OwnersDoNotShare(owners: Owners, ram: Table, status: map<string, Table>, stored: map<string, Table>)
    requires AllOwned(owners, ram, status, stored)
    ensures NumbersUnshared(ram, status, stored)
  {
    forall m, n, pool, id | Has(ram, status, stored, m, pool, id) && Has(ram, status, stored, n, pool, id)
      ensures m == n
    {
      HasIsOwner(owners, ram, status, stored, m, pool, id);
      HasIsOwner(owners, ram, status, stored, n, pool, id);
    }
  }

  lemma OwnedMore(owners: Owners, name: string, nums: Numbers, p: string, id: u32)
    requires Owned(owners, name, nums) && (p, id) !in owners
    ensures Owned(owners[(p, id) := name], name, nums[p := id])
  {}

  lemma WithOwned(owners: Owners, t: Table, name: string, st: IfStatus)
    requires TableOwned(owners, t) && Owned(owners, name, st.nums)
    ensures TableOwned(owners, t[name := st])
  {}

  lemma WithoutOwned(owners: Owners, t: Table, names: set<string>)
    requires TableOwned(owners, t)
    ensures TableOwned(owners, t - names)
  {}

  lemma TablesWithOwned(owners: Owners, ts: map<string, Table>, entity: string, t: Table)
    requires TablesOwned(owners, ts) && TableOwned(owners, t)
    ensures TablesOwned(owners, ts[entity := t])
  {}

  lemma TablesWithoutOwned(owners: Owners, ts: map<string, Table>, entity: string)
    requires TablesOwned(owners, ts)
    ensures TablesOwned(owners, ts - {entity})
  {}

  /** The numbers that were there are kept, and those of the pools named are there too. */
  ghost predicate Fills(nums: Numbers, nums0: Numbers, poolNames: seq<string>)
  {
    nums.Keys == nums0.Keys + Named(poolNames) && nums0 == Only(nums, nums0.Keys)
  }

  ghost function Named(poolNames: seq<string>): set<string> { set p | p in poolNames }

  ghost function Only(nums: Numbers, pools: set<string>): Numbers { map p | p in nums && p in pools :: nums[p] }

  /** A table after an interface was rendered, with or without an error. */
  function Recorded(t: Table, name: string, st: IfStatus, ok: bool): Table
  {
    if ok then t[name := st] else t - {name}
  }

  /** Interfaces that stay in memory stay as they are, and none is added. */
  ghost predicate Kept(t: Table, t': Table)
  {
    forall n | n in t' :: n in t && t'[n] == t[n]
  }

  /** The numbers that addresses of the interfaces stand for, in whatever pool. */
  ghost function Claims(specs: map<string, PoolSpec>, t: Table): iset<(string, int)>
  {
    iset k: (string, int) | IsClaimed(specs, t, k)
  }

  ghost predicate IsClaimed(specs: map<string, PoolSpec>, t: Table, k: (string, int))
  {
    exists n :: n in t && ClaimedBy(specs, t[n], k)
  }

  ghost predicate ClaimedBy(specs: map<string, PoolSpec>, st: IfStatus, k: (string, int))
  {
    k in TextClaims(specs, st.ips)
  }

  /** All addresses are marked in the pools that they belong to. */
  ghost predicate TextsMarked(specs: map<string, PoolSpec>, ps: Pools, texts: seq<string>)
  {
    TextClaims(specs, texts) <= Marks(ps)
  }

  ghost predicate IpsMarked(specs: map<string, PoolSpec>, ps: Pools, t: Table) { Claims(specs, t) <= Marks(ps) }

  lemma IpsStayMarked(specs: map<string, PoolSpec>, ps: Pools, qs: Pools, t: Table)
    requires IpsMarked(specs, ps, t) && Grown(ps, qs)
    ensures IpsMarked(specs, qs, t)
  {
    MarksGrow(ps, qs);
  }

  lemma RecordedIsMarked(specs: map<string, PoolSpec>, ps: Pools, t: Table, name: string, st: IfStatus, ok: bool)
    requires IpsMarked(specs, ps, t) && (ok ==> TextsMarked(specs, ps, st.ips))
    ensures IpsMarked(specs, ps, Recorded(t, name, st, ok))
  {
    var t' := Recorded(t, name, st, ok);
    forall k | k in Claims(specs, t') ensures k in Marks(ps) {
      var n :| n in t' && ClaimedBy(specs, t'[n], k);
      if !(ok && n == name) { assert n in t && ClaimedBy(specs, t[n], k); }
    }
  }

  lemma KeptIsMarked(specs: map<string, PoolSpec>, ps: Pools, t: Table, t': Table)
    requires IpsMarked(specs, ps, t) && Kept(t, t')
    ensures IpsMarked(specs, ps, t')
  {
    forall k | k in Claims(specs, t') ensures k in Marks(ps) {
      var n :| n in t' && ClaimedBy(specs, t'[n], k);
      assert n in t && t[n] == t'[n];
    }
  }

  /** The number of a pool is not that of an address that an interface of the table has. */
  ghost predicate Unclaimed(specs: map<string, PoolSpec>, t: Table, pool: string, id: u32)
  {
    (pool, id as int) !in Claims(specs, t)
  }

  lemma FreeIsUnclaimed(specs: map<string, PoolSpec>, ps: Pools, t: Table, pool: string, id: u32)
    requires IpsMarked(specs, ps, t) && pool in ps && id !in ps[pool].used
    ensures Unclaimed(specs, t, pool, id)
  {}

  /** In other words: no interface of the table has an address, static or not, that is the number's own. */
  lemma UnclaimedIs(specs: map<string, PoolSpec>, t: Table, pool: string, id: u32)
    requires pool in specs && specs[pool].net.bits <= 32
    ensures Unclaimed(specs, t, pool, id) <==>
              forall n, x | n in t && x in t[n].ips :: InsideId(specs[pool].net, x) != Some(id)
  {
    if Unclaimed(specs, t, pool, id) {
      forall n, x | n in t && x in t[n].ips ensures InsideId(specs[pool].net, x) != Some(id) {
        assert n in t && !ClaimedBy(specs, t[n], (pool, id as int));
      }
    } else {
      var n :| n in t && ClaimedBy(specs, t[n], (pool, id as int));
      var x :| x in t[n].ips && IsAddressOf(specs, pool, x, id);
    }
  }

  /** The addresses are the static ones and those of the numbers. */
  ghost predicate AddressesAre(specs: map<string, PoolSpec>, st: IfStatus, statics: seq<string>)
  {
    && (forall p | p in st.nums :: p in specs)
    && forall x :: x in st.ips <==> x in statics || exists p :: p in st.nums && x == AddressIn(specs, p, st.nums[p])
  }

  lemma FillsMore(nums: Numbers, nums0: Numbers, poolNames: seq<string>, i: nat, id: u32)
    requires i < |poolNames| && Fills(nums, nums0, poolNames[..i])
    ensures Fills(if poolNames[i] in nums then nums else nums[poolNames[i] := id], nums0, poolNames[..i + 1])
  {
    assert poolNames[..i + 1] == poolNames[..i] + [poolNames[i]];
    assert Named(poolNames[..i + 1]) == Named(poolNames[..i]) + {poolNames[i]};
  }

  /** Numbers with an owner are in the range of their pools, and in use there. */
  ghost predicate InUse(ps: Pools, owners: Owners)
  {
    forall k | k in owners :: Settable(ps, k.0, k.1) && k.1 in ps[k.0].used
  }

  lemma InUseGrown(ps: Pools, qs: Pools, owners: Owners)
    requires InUse(ps, owners) && Grown(ps, qs)
    ensures InUse(qs, owners)
  {}

  /** The numbers of an interface in some order. */
  ghost predicate Lists(order: seq<(string, u32)>, nums: Numbers)
  {
    forall k :: k in order <==> k.0 in nums && nums[k.0] == k.1
  }

  /** Marks numbers in turn, up to the first that cannot be marked. */
  ghost function MarkAll(ps: Pools, order: seq<(string, u32)>): (r: (Pools, bool))
    requires AllReady(ps)
    ensures AllReady(r.0) && Grown(ps, r.0)
    decreases order
  {
    if order == [] then (ps, true)
    else if !Settable(ps, order[0].0, order[0].1) then (ps, false)
    else MarkAll(MarkIn(ps, order[0].0, order[0].1), order[1..])
  }

  ghost predicate AllSettable(ps: Pools, nums: Numbers) { forall p | p in nums :: Settable(ps, p, nums[p]) }

  ghost predicate Marked(ps: Pools, pool: string, id: u32) { pool in ps && id in ps[pool].used }

  lemma {:induction false} SettableAreMarked(ps: Pools, order: seq<(string, u32)>, k: (string, u32))
    requires AllReady(ps) && (forall k | k in order :: Settable(ps, k.0, k.1)) && k in order
    ensures Marked(MarkAll(ps, order).0, k.0, k.1)
    decreases order
  {
    var qs := MarkIn(ps, order[0].0, order[0].1);
    if k == order[0] {
      assert Grown(qs, MarkAll(qs, order[1..]).0);
    } else {
      SettableAreMarked(qs, order[1..], k);
    }
  }

  /** Marking succeeds exactly if all numbers can be marked. */
  lemma {:induction false} SucceedsExactlyIf(ps: Pools, order: seq<(string, u32)>)
    requires AllReady(ps)
    ensures MarkAll(ps, order).1 <==> forall k | k in order :: Settable(ps, k.0, k.1)
    decreases order
  {
    if order != [] && Settable(ps, order[0].0, order[0].1) {
      var qs := MarkIn(ps, order[0].0, order[0].1);
      assert forall k :: k in order <==> k == order[0] || k in order[1..];
      SucceedsExactlyIf(qs, order[1..]);
    }
  }

  /** Then exactly these numbers are marked. */
  lemma {:induction false} MarksThese(ps: Pools, order: seq<(string, u32)>, k: (string, int))
    requires AllReady(ps) && MarkAll(ps, order).1
    ensures k in Marks(MarkAll(ps, order).0) <==> k in Marks(ps) || exists o :: o in order && o.0 == k.0 && o.1 == k.1
    decreases order
  {
    if order != [] {
      var qs := MarkIn(ps, order[0].0, order[0].1);
      assert k in Marks(qs) <==> k in Marks(ps) || (order[0].0 == k.0 && order[0].1 == k.1);
      assert forall o :: o in order <==> o == order[0] || o in order[1..];
      MarksThese(qs, order[1..], k);
    }
  }

  /** Numbers that are in use already are marked without any change. */
  lemma {:induction false} MarkedAgain(ps: Pools, order: seq<(string, u32)>)
    requires AllReady(ps) && forall k | k in order :: Settable(ps, k.0, k.1) && Marked(ps, k.0, k.1)
    ensures MarkAll(ps, order) == (ps, true)
    decreases order
  {
    if order != [] {
      var pool, id := order[0].0, order[0].1;
      assert order[0] in order && ps[pool].used + {id} == ps[pool].used;
      assert MarkIn(ps, pool, id) == ps;
      assert forall k | k in order[1..] :: k in order;
      MarkedAgain(ps, order[1..]);
    }
  }

  lemma OwnAreMarked(ps: Pools, owners: Owners, name: string, nums: Numbers, order: seq<(string, u32)>)
    requires AllReady(ps) && InUse(ps, owners) && Owned(owners, name, nums) && Lists(order, nums)
    ensures MarkAll(ps, order) == (ps, true)
  {
    forall k | k in order ensures Settable(ps, k.0, k.1) && Marked(ps, k.0, k.1) {
      assert k.0 in nums && (k.0, nums[k.0]) in owners;
    }
    MarkedAgain(ps, order);
  }

  /** The numbers of an interface. */
  ghost function NumsOf(nums: Numbers): iset<(string, int)>
  {
    iset k: (string, int) | k.0 in nums && nums[k.0] == k.1
  }

  /** The numbers that were not there before. */
  ghost function NewNums(nums0: Numbers, nums: Numbers): iset<(string, int)>
  {
    iset k: (string, int) | k.0 in nums && k.0 !in nums0 && nums[k.0] == k.1
  }

  /** New numbers were drawn, and nothing else was done to the pools. */
  ghost predicate PoolsDrawn(ps: Pools, qs: Pools, nums0: Numbers, nums: Numbers)
  {
    && ps.Keys == qs.Keys && Marks(qs) == Marks(ps) + NewNums(nums0, nums) && NewNums(nums0, nums) !! Marks(ps)
    && forall p | p in ps && (p !in nums || p in nums0) :: qs[p] == ps[p]
  }

  /**
   * What an interface does to the pools when its status is initialised: its new numbers are in use, also after an
   * error, and otherwise the numbers that its addresses stand for, and nothing else.
   */
  ghost predicate Accounted(specs: map<string, PoolSpec>, ps: Pools, qs: Pools, nums0: Numbers, st: IfStatus, ok: bool)
  {
    && Marks(qs) == Marks(ps) + NewNums(nums0, st.nums) + (if ok then TextClaims(specs, st.ips) else iset{})
    && NewNums(nums0, st.nums) !! Marks(ps)
  }

  lemma IsAccounted(specs: map<string, PoolSpec>, ps: Pools, qs: Pools, rs: Pools, nums0: Numbers, st: IfStatus,
                    ok: bool)
    requires PoolsDrawn(ps, qs, nums0, st.nums) && specs.Keys == qs.Keys
    requires if ok then TextsAdded(specs, qs, rs, st.ips) else rs == qs
    ensures Accounted(specs, ps, rs, nums0, st, ok)
  {
    if ok { AddedMarks(specs, qs, rs, st.ips); }
  }

  lemma AccountedMarks(specs: map<string, PoolSpec>, ps: Pools, qs: Pools, nums0: Numbers, st: IfStatus, ok: bool)
    requires Accounted(specs, ps, qs, nums0, st, ok)
    ensures ok ==> TextsMarked(specs, qs, st.ips)
  {}

  lemma AddedMarks(specs: map<string, PoolSpec>, ps: Pools, qs: Pools, texts: seq<string>)
    requires TextsAdded(specs, ps, qs, texts) && specs.Keys == qs.Keys
    ensures Marks(qs) == Marks(ps) + TextClaims(specs, texts)
  {
    forall k: (string, int) ensures k in Marks(qs) <==> k in Marks(ps) || k in TextClaims(specs, texts) {
      if k.0 in qs {
        assert k.1 in qs[k.0].used <==>
               k.1 in ps[k.0].used || exists t :: t in texts && IsAddressOf(specs, k.0, t, k.1);
      }
    }
  }

  lemma OneMoreDrawn(ps: Pools, qs: Pools, rs: Pools, nums0: Numbers, nums: Numbers, pool: string, id: u32)
    requires PoolsDrawn(ps, qs, nums0, nums) && DrawnFrom(qs, rs, pool, id) && pool !in nums && nums0.Keys <= nums.Keys
    ensures PoolsDrawn(ps, rs, nums0, nums[pool := id])
  {
    OneMoreMark(qs, rs, pool, id);
    OneMoreNew(nums0, nums, pool, id);
  }

  lemma OneMoreMark(qs: Pools, rs: Pools, pool: string, id: u32)
    requires DrawnFrom(qs, rs, pool, id)
    ensures Marks(rs) == Marks(qs) + iset{(pool, id as int)} && (pool, id as int) !in Marks(qs)
  {
    DrawnIs(qs, rs, pool, id);
    forall k: (string, int) ensures k in Marks(rs) <==> k in Marks(qs) || k == (pool, id as int) {
      if k.0 in qs && k.0 != pool { assert rs[k.0] == qs[k.0]; }
    }
  }

  lemma OneMoreNew(nums0: Numbers, nums: Numbers, pool: string, id: u32)
    requires pool !in nums && nums0.Keys <= nums.Keys
    ensures NewNums(nums0, nums[pool := id]) == NewNums(nums0, nums) + iset{(pool, id as int)}
  {
    assert pool !in nums0;
    forall k: (string, int)
      ensures k in NewNums(nums0, nums[pool := id]) <==> k in NewNums(nums0, nums) || k == (pool, id as int)
    {}
  }

  /** Drawing has stopped at the first pool that has no number left for the interface. */
  ghost predicate StoppedAt(ps: Pools, nums0: Numbers, nums: Numbers, poolNames: seq<string>, i: nat)
    requires AllReady(ps)
  {
    && i < |poolNames| && poolNames[i] !in nums0 && !CanDraw(ps, poolNames[i])
    && AllDrawable(ps, nums0, poolNames[..i]) && Fills(nums, nums0, poolNames[..i])
  }

  ghost predicate Stopped(ps: Pools, nums0: Numbers, nums: Numbers, poolNames: seq<string>)
    requires AllReady(ps)
  {
    exists i :: StoppedAt(ps, nums0, nums, poolNames, i)
  }

  lemma StillDrawable(ps: Pools, qs: Pools, nums0: Numbers, nums: Numbers, pool: string)
    requires PoolsDrawn(ps, qs, nums0, nums) && AllReady(ps) && AllReady(qs) && pool !in nums
    ensures CanDraw(qs, pool) <==> CanDraw(ps, pool)
  {}

  /** The pools named have a number left for an interface, unless it has one already. */
  ghost predicate AllDrawable(ps: Pools, nums0: Numbers, poolNames: seq<string>)
    requires AllReady(ps)
  {
    forall p | p in poolNames && p !in nums0 :: CanDraw(ps, p)
  }

  lemma HasOrDraws(ps: Pools, nums0: Numbers, nums: Numbers, poolNames: seq<string>, i: nat)
    requires AllReady(ps) && i < |poolNames| && Fills(nums, nums0, poolNames[..i])
    requires AllDrawable(ps, nums0, poolNames[..i])
    ensures poolNames[i] in nums || CanDraw(ps, poolNames[i]) <==> poolNames[i] in nums0 || CanDraw(ps, poolNames[i])
  {}

  lemma DrawableMore(ps: Pools, nums0: Numbers, poolNames: seq<string>, i: nat)
    requires AllReady(ps) && i < |poolNames|
    ensures AllDrawable(ps, nums0, poolNames[..i + 1]) <==>
              AllDrawable(ps, nums0, poolNames[..i]) && (poolNames[i] in nums0 || CanDraw(ps, poolNames[i]))
    ensures AllDrawable(ps, nums0, poolNames) ==> AllDrawable(ps, nums0, poolNames[..i + 1])
  {
    assert poolNames[..i + 1] == poolNames[..i] + [poolNames[i]];
  }

  lemma {:induction false} SomeOrder(nums: Numbers) returns (order: seq<(string, u32)>)
    ensures Lists(order, nums)
    decreases |nums|
  {
    if nums == map[] {
      order := [];
    } else {
      var p :| p in nums;
      var rest := nums - {p};
      assert rest.Keys == nums.Keys - {p};
      assert |rest.Keys| < |nums.Keys|;
      order := SomeOrder(rest);
      order := [(p, nums[p])] + order;
    }
  }

  /**
   * A number not yet in use is marked in every order of the interface's numbers exactly if all of them can
   * be marked: one number of a pool that is gone may keep the others from being marked.
   */
  lemma EveryOrderMarksExactlyIf(ps: Pools, nums: Numbers, p: string)
    requires AllReady(ps) && p in nums && !Marked(ps, p, nums[p])
    ensures (forall order | Lists(order, nums) :: Marked(MarkAll(ps, order).0, p, nums[p])) <==> AllSettable(ps, nums)
  {
    if AllSettable(ps, nums) {
      forall order | Lists(order, nums) ensures Marked(MarkAll(ps, order).0, p, nums[p]) {
        SettableAreMarked(ps, order, (p, nums[p]));
      }
    } else {
      var q :| q in nums && !Settable(ps, q, nums[q]);
      var order := SomeOrder(nums);
      var bad := [(q, nums[q])] + order;
      assert Lists(bad, nums);
      assert MarkAll(ps, bad) == (ps, false);
    }
  }

  /**
   * How a deleted pool makes a number of another pool go to two interfaces after a restart: an interface has number 1
   * of pool p and of pool q; q is gone and is tried first; the next allocation from p gives number 1 again.
   */
  lemma DeletedPoolSharesNumber()
    ensures var ps: Pools := map["p" := Pool(1, 10, 1, {})]; var nums: Numbers := map["p" := 1, "q" := 1];
            var order: seq<(string, u32)> := [("q", 1), ("p", 1)];
            && Lists(order, nums) && AllReady(ps) && MarkAll(ps, order) == (ps, false)
            && Step(ps["p"], Allocate).1 == Allocated(nums["p"])
  {}

  /** What happens to an entity: its rendering begins or is complete, or it is updated or deleted. */
  datatype Change = Begin(entity: string) | Complete(entity: string) | Updated(entity: string) | Deleted(entity: string)

  /**
   * The entities of the configuration, the interfaces in memory, those in the entities' statuses, and those in the
   * statuses as the datastore has them.
   */
  datatype Tables = Tables(configured: set<string>, ram: Table, status: map<string, Table>, stored: map<string, Table>)

  function TableIn(ts: map<string, Table>, entity: string): Table { if entity in ts then ts[entity] else map[] }

  function NumbersIn(t: Table, name: string): Numbers { if name in t then t[name].nums else map[] }

  /** A change that ends the process: an entity is deleted that was not rendered since it was updated. */
  predicate Fatal(t: Tables, c: Change) { c.Deleted? && c.entity in t.configured && c.entity !in t.status }

  /** What a change of an entity makes of the tables. */
  function Changed(t: Tables, c: Change): Tables
  {
    match c
    case Begin(e) => t.(status := t.status[e := map[]])
    case Complete(e) => t.(stored := t.stored[e := TableIn(t.status, e)])
    case Updated(e) => Tables(t.configured + {e}, t.ram, t.status - {e}, t.stored - {e})
    case Deleted(e) =>
      if e !in t.configured || e !in t.status then t
      else Tables(t.configured - {e}, t.ram - t.status[e].Keys, t.status - {e}, t.stored - {e})
  }

  /** The statuses of interfaces in memory and in the datastore. */
  class StatusTables {
    /**
     * The entities of the configuration, the interfaces known to the controller, and those in an entity's status, if it
     * has one.
     */
    var configured: set<string>
    var ram: Table
    var status: map<string, Table>

    /** The interfaces in the entities' statuses as the datastore has them. */
    var stored: map<string, Table>

    ghost var owners: Owners

    ghost predicate Valid()
      reads this
    {
      AllOwned(owners, ram, status, stored)
    }

    constructor ()
      ensures Valid() && Value() == Tables({}, map[], map[], map[]) && owners == map[]
    {
      configured, ram, status, stored, owners := {}, map[], map[], map[], map[];
    }

    function Value(): Tables
      reads this
    {
      Tables(configured, ram, status, stored)
    }

    function StatusOf(entity: string): Table
      reads this
    {
      TableIn(status, entity)
    }

    function NumbersOf(name: string): Numbers
      reads this
    {
      NumbersIn(ram, name)
    }

    /** A number that nothing had gets an owner. */
    ghost method Register(k: (string, u32), name: string)
      requires Valid() && k !in owners
      modifies this`owners
      ensures Valid() && owners == old(owners)[k := name]
    {
      OwnersGrow(owners, owners[k := name], k, ram, status, stored);
      owners := owners[k := name];
    }

    /** The owners are known anew. */
    ghost method Keep(owners': Owners)
      requires AllOwned(owners', ram, status, stored)
      modifies this`owners
      ensures Valid() && owners == owners'
    {
      owners := owners';
    }

    /** The statuses of the entities as they are read from the datastore. */
    method Reload()
      modifies this`ram, this`status
      ensures ram == map[] && status == stored
    {
      ram, status := map[], stored;
    }

    method PersistInterfaceStatus(entity: string, name: string, st: IfStatus)
      requires Valid() && Owned(owners, name, st.nums)
      modifies this`ram, this`status
      ensures Valid() && ram == old(ram)[name := st]
      ensures status == old(status)[entity := old(StatusOf(entity))[name := st]]
    {
      WithOwned(owners, ram, name, st);
      WithOwned(owners, StatusOf(entity), name, st);
      TablesWithOwned(owners, status, entity, StatusOf(entity)[name := st]);
      ram, status := ram[name := st], status[entity := StatusOf(entity)[name := st]];
    }

    method RemoveInterfaceStatus(entity: string, name: string)
      requires Valid()
      modifies this`ram, this`status
      ensures Valid() && ram == old(ram) - {name} && status == old(status)[entity := old(StatusOf(entity)) - {name}]
    {
      WithoutOwned(owners, ram, {name});
      WithoutOwned(owners, StatusOf(entity), {name});
      TablesWithOwned(owners, status, entity, StatusOf(entity) - {name});
      ram, status := ram - {name}, status[entity := StatusOf(entity) - {name}];
    }

    /** Keeps the status of an interface, or removes it after an error. */
    method Record(entity: string, name: string, st: IfStatus, ok: bool)
      requires Valid() && (ok ==> Owned(owners, name, st.nums))
      modifies this`ram, this`status
      ensures Valid() && ram == Recorded(old(ram), name, st, ok)
      ensures status == old(status)[entity := Recorded(old(StatusOf(entity)), name, st, ok)]
    {
      if ok { PersistInterfaceStatus(entity, name, st); } else { RemoveInterfaceStatus(entity, name); }
    }

    /** The start of an entity's rendering: a new status. */
    method BeginRender(entity: string)
      requires Valid()
      modifies this`status
      ensures Valid() && status == old(status)[entity := map[]]
    {
      TablesWithOwned(owners, status, entity, map[]);
      status := status[entity := map[]];
    }

    /** The end of an entity's rendering: the status goes to the datastore. */
    method RenderComplete(entity: string)
      requires Valid()
      modifies this`stored
      ensures Valid() && stored == old(stored)[entity := StatusOf(entity)]
    {
      TablesWithOwned(owners, stored, entity, StatusOf(entity));
      stored := stored[entity := StatusOf(entity)];
    }

    /** A new configuration of an entity: it has no status, in memory and in the datastore. */
    method Update(entity: string)
      requires Valid()
      modifies this`configured, this`status, this`stored
      ensures Valid() && configured == old(configured) + {entity}
      ensures status == old(status) - {entity} && stored == old(stored) - {entity}
    {
      TablesWithoutOwned(owners, status, entity);
      TablesWithoutOwned(owners, stored, entity);
      configured, status, stored := configured + {entity}, status - {entity}, stored - {entity};
    }

    /** The entity's interfaces are removed one by one. */
    method DeleteInterfaceEntries(entity: string)
      requires Valid()
      modifies this`ram, this`status
      ensures Valid() && ram == old(ram) - old(StatusOf(entity)).Keys
      ensures status - {entity} == old(status) - {entity}
    {
      var todo := StatusOf(entity).Keys;
      ghost var all := todo;
      while todo != {}
        invariant todo <= all && Valid() && ram == old(ram) - (all - todo)
        invariant status - {entity} == old(status) - {entity}
      {
        var name :| name in todo;
        RemoveInterfaceStatus(entity, name);
        todo := todo - {name};
      }
      assert all - todo == all;
    }

    /** Deletes an entity with its interfaces; following a status that is not there ends the process. */
    method Delete(entity: string) returns (crashed: bool)
      requires Valid()
      modifies this`configured, this`ram, this`status, this`stored
      ensures Valid() && crashed == (entity in old(configured) && entity !in old(status))
      ensures !crashed && entity in old(configured) ==>
                && ram == old(ram) - old(StatusOf(entity)).Keys && configured == old(configured) - {entity}
                && status == old(status) - {entity} && stored == old(stored) - {entity}
      ensures crashed || entity !in old(configured) ==> Value() == old(Value())
    {
      if entity !in configured { return false; }
      if entity !in status { return true; }
      DeleteInterfaceEntries(entity);
      TablesWithoutOwned(owners, status, entity);
      TablesWithoutOwned(owners, stored, entity);
      configured, status, stored := configured - {entity}, status - {entity}, stored - {entity};
      return false;
    }

    lemma Unshared()
      requires Valid()
      ensures NoneShared()
    {
      OwnersDoNotShare(owners, ram, status, stored);
    }

    method Apply(c: Change) returns (crashed: bool)
      requires Valid()
      modifies this`configured, this`ram, this`status, this`stored
      ensures Valid() && Value() == Changed(old(Value()), c) && crashed == Fatal(old(Value()), c)
    {
      crashed := false;
      match c {
        case Begin(entity) => BeginRender(entity);
        case Complete(entity) => RenderComplete(entity);
        case Updated(entity) => Update(entity);
        case Deleted(entity) => crashed := Delete(entity);
      }
    }

    ghost predicate NoneShared()
      reads this
    {
      NumbersUnshared(ram, status, stored)
    }
  }

  /** The addresses of the numbers that were drawn. */
  ghost predicate NewAre(specs: map<string, PoolSpec>, nums0: Numbers, nums: Numbers, addresses: seq<string>)
  {
    && nums0.Keys <= nums.Keys && (forall p | p in nums && p !in nums0 :: p in specs)
    && forall x :: x in addresses <==> exists p :: p in nums && p !in nums0 && x == AddressIn(specs, p, nums[p])
  }

  /** No number that was drawn is that of an address of an interface in memory. */
  ghost predicate NewUnclaimed(specs: map<string, PoolSpec>, ram: Table, nums0: Numbers, nums: Numbers)
  {
    forall p | p in nums && p !in nums0 :: Unclaimed(specs, ram, p, nums[p])
  }

  /** What drawing missing numbers has led to: the interface owns them, and nobody claims the new ones. */
  ghost predicate Drawn(specs: map<string, PoolSpec>, owners: Owners, ram: Table, name: string, nums0: Numbers,
                        nums: Numbers, addresses: seq<string>)
  {
    Owned(owners, name, nums) && NewAre(specs, nums0, nums, addresses) && NewUnclaimed(specs, ram, nums0, nums)
  }

  /** A number was drawn for an interface: nobody owned or claimed it. */
  ghost predicate NumberDrawn(specs: map<string, PoolSpec>, owners: Owners, owners': Owners, ram: Table, ps: Pools,
                              qs: Pools, name: string, pool: string, id: u32, address: string)
  {
    && (pool, id) !in owners && owners' == owners[(pool, id) := name] && DrawnFrom(ps, qs, pool, id)
    && Unclaimed(specs, ram, pool, id) && pool in specs && address == AddressIn(specs, pool, id)
  }

  /** The numbers that have been drawn for some of the pools named, and what that has made of the pools. */
  ghost predicate DrawnTo(specs: map<string, PoolSpec>, owners: Owners, ram: Table, name: string,
                          poolNames: seq<string>, ps: Pools, qs: Pools, nums0: Numbers, nums: Numbers,
                          addresses: seq<string>)
  {
    && Fills(nums, nums0, poolNames) && Drawn(specs, owners, ram, name, nums0, nums, addresses)
    && PoolsDrawn(ps, qs, nums0, nums)
  }

  lemma DrawnToMore(specs: map<string, PoolSpec>, owners: Owners, owners': Owners, ram: Table, name: string,
                    poolNames: seq<string>, i: nat, ps: Pools, qs: Pools, rs: Pools, nums0: Numbers, nums: Numbers,
                    addresses: seq<string>, id: u32, address: string)
    requires i < |poolNames| && poolNames[i] !in nums
    requires DrawnTo(specs, owners, ram, name, poolNames[..i], ps, qs, nums0, nums, addresses)
    requires NumberDrawn(specs, owners, owners', ram, qs, rs, name, poolNames[i], id, address)
    ensures DrawnTo(specs, owners', ram, name, poolNames[..i + 1], ps, rs, nums0, nums[poolNames[i] := id],
                    addresses + [address])
  {
    OneMoreDrawn(ps, qs, rs, nums0, nums, poolNames[i], id);
    DrawnOneMore(specs, owners, ram, name, nums0, nums, addresses, poolNames[i], id);
    FillsMore(nums, nums0, poolNames, i, id);
  }

  lemma NothingDrawn(specs: map<string, PoolSpec>, owners: Owners, ram: Table, name: string, ps: Pools,
                     poolNames: seq<string>, nums0: Numbers)
    requires Owned(owners, name, nums0)
    ensures poolNames[..0] == [] && DrawnTo(specs, owners, ram, name, poolNames[..0], ps, ps, nums0, nums0, [])
  {
    assert Named([]) == {} && Only(nums0, nums0.Keys) == nums0;
    assert NewNums(nums0, nums0) == iset{};
  }

  lemma DrawnOneMore(specs: map<string, PoolSpec>, owners: Owners, ram: Table, name: string, nums0: Numbers,
                     nums: Numbers, addresses: seq<string>, pool: string, id: u32)
    requires Drawn(specs, owners, ram, name, nums0, nums, addresses) && (pool, id) !in owners
    requires pool !in nums && pool in specs && Unclaimed(specs, ram, pool, id)
    ensures Drawn(specs, owners[(pool, id) := name], ram, name, nums0, nums[pool := id],
                  addresses + [AddressIn(specs, pool, id)])
  {
    NewOneMore(specs, ram, nums0, nums, addresses, pool, id);
    OwnedMore(owners, name, nums, pool, id);
  }

  lemma NewOneMore(specs: map<string, PoolSpec>, ram: Table, nums0: Numbers, nums: Numbers, addresses: seq<string>,
                   pool: string, id: u32)
    requires NewAre(specs, nums0, nums, addresses) && NewUnclaimed(specs, ram, nums0, nums)
    requires pool !in nums && pool in specs && Unclaimed(specs, ram, pool, id)
    ensures NewAre(specs, nums0, nums[pool := id], addresses + [AddressIn(specs, pool, id)])
    ensures NewUnclaimed(specs, ram, nums0, nums[pool := id])
  {
    var nums', new_ := nums[pool := id], AddressIn(specs, pool, id);
    forall x
      ensures x in addresses + [new_] <==> exists p :: p in nums' && p !in nums0 && x == AddressIn(specs, p, nums'[p])
    {
      if x in addresses {
        var p :| p in nums && p !in nums0 && x == AddressIn(specs, p, nums[p]);
        assert p in nums' && nums'[p] == nums[p];
      }
      if x == new_ { assert pool in nums' && nums'[pool] == id; }
    }
  }

  lemma AllAddresses(specs: map<string, PoolSpec>, nums0: Numbers, nums: Numbers, order: seq<(string, u32)>,
                     statics: seq<string>, kept: seq<string>, drawn: seq<string>)
    requires Lists(order, nums0) && IsListed(specs, order, kept) && NewAre(specs, nums0, nums, drawn)
    requires forall p | p in nums0 :: nums[p] == nums0[p]
    ensures AddressesAre(specs, IfStatus(nums, statics + kept + drawn), statics)
  {
    forall p | p in nums0 ensures p in specs { assert (p, nums0[p]) in order; }
    forall x ensures x in kept <==> exists p :: p in nums0 && x == AddressIn(specs, p, nums0[p]) {
      if x in kept {
        var i :| 0 <= i < |kept| && kept[i] == x;
        assert order[i] in order;
      }
      if p :| p in nums0 && x == AddressIn(specs, p, nums0[p]) {
        assert (p, nums0[p]) in order;
        var i :| 0 <= i < |order| && order[i] == (p, nums0[p]);
        assert kept[i] in kept;
      }
    }
    forall x ensures x in statics + kept + drawn <==>
                     x in statics || exists p :: p in nums && x == AddressIn(specs, p, nums[p])
    {
      if p :| p in nums0 && x == AddressIn(specs, p, nums0[p]) { assert p in nums; }
    }
  }

  /** The addresses of the numbers, in order. */
  ghost predicate IsListed(specs: map<string, PoolSpec>, order: seq<(string, u32)>, addresses: seq<string>)
  {
    && |addresses| == |order|
    && forall i | 0 <= i < |order| :: order[i].0 in specs && addresses[i] == AddressIn(specs, order[i].0, order[i].1)
  }

  lemma ListedMore(specs: map<string, PoolSpec>, order: seq<(string, u32)>, i: nat, addresses: seq<string>)
    requires i < |order| && IsListed(specs, order[..i], addresses)
    ensures order[i].0 in specs ==>
              IsListed(specs, order[..i + 1], addresses + [AddressIn(specs, order[i].0, order[i].1)])
  {}

  /** Everything that happens to interfaces changes: the tables and the pools. */
  datatype Snap = Snap(tables: Tables, pools: Pools)

  /**
   * An interface was rendered. It was an error exactly if one of its pools had no number left for it. Otherwise its
   * status is kept: with the numbers that it had, new ones that nobody claims, and the addresses of all.
   */
  ghost predicate RendersTo(specs: map<string, PoolSpec>, a: Snap, entity: string, name: string, poolNames: seq<string>,
                            statics: seq<string>, st: IfStatus, ok: bool, b: Snap)
  {
    var nums0, own := NumbersIn(a.tables.ram, name), TableIn(a.tables.status, entity);
    && AllReady(a.pools) && (ok <==> AllDrawable(a.pools, nums0, poolNames))
    && Accounted(specs, a.pools, b.pools, nums0, st, ok) && (!ok ==> Stopped(a.pools, nums0, st.nums, poolNames))
    && (ok ==> Fills(st.nums, nums0, poolNames) && AddressesAre(specs, st, statics))
    && (ok ==> NewUnclaimed(specs, a.tables.ram, nums0, st.nums))
    && b.tables ==
       if ok then a.tables.(ram := a.tables.ram[name := st], status := a.tables.status[entity := own[name := st]])
       else a.tables.(ram := a.tables.ram - {name}, status := a.tables.status[entity := own - {name}])
  }

  lemma IsRendered(specs: map<string, PoolSpec>, a: Snap, entity: string, name: string, poolNames: seq<string>,
                   statics: seq<string>, st: IfStatus, ok: bool, b: Snap)
    requires AllReady(a.pools) && (ok <==> AllDrawable(a.pools, NumbersIn(a.tables.ram, name), poolNames))
    requires Accounted(specs, a.pools, b.pools, NumbersIn(a.tables.ram, name), st, ok)
    requires !ok ==> Stopped(a.pools, NumbersIn(a.tables.ram, name), st.nums, poolNames)
    requires ok ==> Fills(st.nums, NumbersIn(a.tables.ram, name), poolNames) && AddressesAre(specs, st, statics)
    requires ok ==> NewUnclaimed(specs, a.tables.ram, NumbersIn(a.tables.ram, name), st.nums)
    requires b.tables.configured == a.tables.configured && b.tables.stored == a.tables.stored
    requires b.tables.ram == Recorded(a.tables.ram, name, st, ok)
    requires b.tables.status == a.tables.status[entity := Recorded(TableIn(a.tables.status, entity), name, st, ok)]
    ensures RendersTo(specs, a, entity, name, poolNames, statics, st, ok, b)
  {}

  class InterfaceManager {
    const pools: PoolManager
    const tables: StatusTables

    ghost predicate Valid()
      reads tables, pools, pools.allocators.Values
    {
      && pools.Valid() && InUse(pools.value, tables.owners) && tables.Valid()
      && IpsMarked(pools.specs, pools.value, tables.ram)
    }

    ghost function Now(): Snap
      reads tables, pools
    {
      Snap(tables.Value(), pools.value)
    }

    constructor (specs: map<string, PoolSpec>)
      requires AllValid(specs)
      ensures Valid() && Now() == Snap(Tables({}, map[], map[], map[]), FreshPools(specs)) && pools.specs == specs
      ensures fresh(tables) && fresh(pools) && fresh(pools.allocators.Values)
    {
      var t := new StatusTables();
      var p := new PoolManager(specs);
      tables, pools := t, p;
    }

    /** Marks the numbers that an interface has. */
    method MarkNumbers(order: seq<(string, u32)>) returns (addresses: seq<string>, ok: bool)
      requires pools.Valid()
      modifies pools`value, pools.allocators.Values
      ensures pools.Valid() && (pools.value, ok) == MarkAll(old(pools.value), order)
      ensures ok ==> IsListed(pools.specs, order, addresses)
    {
      addresses := [];
      ghost var ps := pools.value;
      assert order[..0] == [];
      for i := 0 to |order|
        invariant pools.Valid() && MarkAll(pools.value, order[i..]) == MarkAll(ps, order)
        invariant IsListed(pools.specs, order[..i], addresses)
      {
        ListedMore(pools.specs, order, i, addresses);
        assert order[i..][0] == order[i] && order[i..][1..] == order[i + 1..];
        var address;
        address, ok := pools.SetAddress(order[i].0, order[i].1);
        if !ok { return; }
        addresses := addresses + [address];
      }
      assert order[|order|..] == [] && order[..|order|] == order;
      ok := true;
    }

    /** The numbers in the order in which the loop over them goes. */
    method Listing(nums: Numbers) returns (order: seq<(string, u32)>)
      ensures Lists(order, nums)
    {
      order := [];
      var todo := nums.Keys;
      while todo != {}
        invariant todo <= nums.Keys && forall k :: k in order <==> k.0 in nums.Keys - todo && nums[k.0] == k.1
      {
        var p :| p in todo;
        order := order + [(p, nums[p])];
        todo := todo - {p};
      }
    }

    /** Draws a number of a pool for an interface: one that no interface has. */
    method DrawNumber(name: string, pool: string) returns (address: string, id: u32, ok: bool)
      requires Valid()
      modifies tables`owners, pools`value, pools.allocators.Values
      ensures Valid()
      ensures ok ==> NumberDrawn(pools.specs, old(tables.owners), tables.owners, tables.ram, old(pools.value),
                                 pools.value, name, pool, id, address)
      ensures !ok ==> tables.owners == old(tables.owners) && pools.value == old(pools.value)
      ensures ok <==> CanDraw(old(pools.value), pool)
    {
      ghost var ps := pools.value;
      address, id, ok := pools.AllocateAddress(pool);
      if ok {
        DrawnIs(ps, pools.value, pool, id);
        DrawKeeps(ps, pools.value, tables.owners, pool, id, name);
        FreeIsUnclaimed(pools.specs, ps, tables.ram, pool, id);
        IpsStayMarked(pools.specs, ps, pools.value, tables.ram);
        tables.Register((pool, id), name);
      }
    }

    /** Draws a number of a pool for the tunnels of a node, which no status keeps; no interface has it. */
    method DrawForTunnel(pool: string) returns (id: u32, ok: bool)
      requires Valid()
      modifies pools`value, pools.allocators.Values
      ensures Valid()
      ensures ok ==> DrawnFrom(old(pools.value), pools.value, pool, id) && (pool, id) !in tables.owners
      ensures ok ==> Unclaimed(pools.specs, tables.ram, pool, id)
      ensures !ok ==> pools.value == old(pools.value)
      ensures ok <==> CanDraw(old(pools.value), pool)
    {
      ghost var ps := pools.value;
      var address;
      address, id, ok := pools.AllocateAddress(pool);
      if ok {
        DrawnIs(ps, pools.value, pool, id);
        InUseGrown(ps, pools.value, tables.owners);
        FreeIsUnclaimed(pools.specs, ps, tables.ram, pool, id);
        IpsStayMarked(pools.specs, ps, pools.value, tables.ram);
      }
    }

    /** Marks the addresses of an interface in all pools. */
    method MarkAddresses(texts: seq<string>)
      requires pools.Valid()
      modifies pools`value, pools.allocators.Values
      ensures pools.Valid() && TextsAdded(pools.specs, old(pools.value), pools.value, texts)
    {
      assert texts[..0] == [];
      for i := 0 to |texts|
        invariant pools.Valid() && TextsAdded(pools.specs, old(pools.value), pools.value, texts[..i])
      {
        ghost var ps := pools.value;
        pools.SetAddressInPools(texts[i]);
        OneMoreText(pools.specs, old(pools.value), ps, pools.value, texts[..i], texts[i]);
        assert texts[..i + 1] == texts[..i] + [texts[i]];
      }
      assert texts[..|texts|] == texts;
    }

    /** Draws the number of a pool, if the interface lacks it. */
    method DrawMissing(name: string, poolNames: seq<string>, i: nat, ghost nums0: Numbers, nums1: Numbers,
                       addresses1: seq<string>, ghost ps: Pools)
      returns (nums: Numbers, addresses: seq<string>, ok: bool)
      requires Valid() && i < |poolNames| && AllReady(ps)
      requires DrawnTo(pools.specs, tables.owners, tables.ram, name, poolNames[..i], ps, pools.value, nums0, nums1,
                       addresses1)
      modifies tables`owners, pools`value, pools.allocators.Values
      ensures Valid() && (ok <==> poolNames[i] in nums1 || CanDraw(ps, poolNames[i]))
      ensures ok ==> DrawnTo(pools.specs, tables.owners, tables.ram, name, poolNames[..i + 1], ps, pools.value, nums0,
                             nums, addresses)
      ensures !ok ==> nums == nums1 && addresses == addresses1
      ensures !ok ==> tables.owners == old(tables.owners) && pools.value == old(pools.value)
    {
      if poolNames[i] in nums1 {
        FillsMore(nums1, nums0, poolNames, i, 0);
        return nums1, addresses1, true;
      }
      StillDrawable(ps, pools.value, nums0, nums1, poolNames[i]);
      nums, addresses, ok := DrawLacking(name, poolNames, i, nums0, nums1, addresses1, ps);
    }

    /** Draws the number of a pool that the interface lacks. */
    method DrawLacking(name: string, poolNames: seq<string>, i: nat, ghost nums0: Numbers, nums1: Numbers,
                       addresses1: seq<string>, ghost ps: Pools)
      returns (nums: Numbers, addresses: seq<string>, ok: bool)
      requires Valid() && i < |poolNames| && poolNames[i] !in nums1
      requires DrawnTo(pools.specs, tables.owners, tables.ram, name, poolNames[..i], ps, pools.value, nums0, nums1,
                       addresses1)
      modifies tables`owners, pools`value, pools.allocators.Values
      ensures Valid() && (ok <==> CanDraw(old(pools.value), poolNames[i]))
      ensures ok ==> DrawnTo(pools.specs, tables.owners, tables.ram, name, poolNames[..i + 1], ps, pools.value, nums0,
                             nums, addresses)
      ensures !ok ==> nums == nums1 && addresses == addresses1
      ensures !ok ==> tables.owners == old(tables.owners) && pools.value == old(pools.value)
    {
      nums, addresses := nums1, addresses1;
      ghost var owners, qs := tables.owners, pools.value;
      var address, id;
      address, id, ok := DrawNumber(name, poolNames[i]);
      if ok {
        DrawnToMore(pools.specs, owners, tables.owners, tables.ram, name, poolNames, i, ps, qs, pools.value, nums0,
                    nums1, addresses1, id, address);
        nums, addresses := nums1[poolNames[i] := id], addresses1 + [address];
      }
    }

    /** Draws the numbers that an interface lacks. */
    method DrawNumbers(name: string, poolNames: seq<string>, nums0: Numbers)
      returns (nums: Numbers, addresses: seq<string>, ok: bool)
      requires Valid() && Owned(tables.owners, name, nums0)
      modifies tables`owners, pools`value, pools.allocators.Values
      ensures Valid() && (ok <==> AllDrawable(old(pools.value), nums0, poolNames))
      ensures PoolsDrawn(old(pools.value), pools.value, nums0, nums)
      ensures !ok ==> Stopped(old(pools.value), nums0, nums, poolNames)
      ensures ok ==> DrawnTo(pools.specs, tables.owners, tables.ram, name, poolNames, old(pools.value), pools.value,
                             nums0, nums, addresses)
    {
      nums, addresses := nums0, [];
      ghost var ps := pools.value;
      NothingDrawn(pools.specs, tables.owners, tables.ram, name, ps, poolNames, nums0);
      for i := 0 to |poolNames|
        invariant Valid() && AllDrawable(ps, nums0, poolNames[..i])
        invariant DrawnTo(pools.specs, tables.owners, tables.ram, name, poolNames[..i], ps, pools.value, nums0, nums,
                          addresses)
      {
        DrawableMore(ps, nums0, poolNames, i);
        HasOrDraws(ps, nums0, nums, poolNames, i);
        nums, addresses, ok := DrawMissing(name, poolNames, i, nums0, nums, addresses, ps);
        if !ok {
          assert StoppedAt(ps, nums0, nums, poolNames, i);
          return;
        }
      }
      ok := true;
      assert poolNames[..|poolNames|] == poolNames;
    }

    /** The status that an interface gets: the numbers that it had, and new ones that nobody claims. */
    ghost predicate Initialised(name: string, nums0: Numbers, poolNames: seq<string>, statics: seq<string>,
                                st: IfStatus)
      reads tables
    {
      && Owned(tables.owners, name, st.nums) && Fills(st.nums, nums0, poolNames)
      && AddressesAre(pools.specs, st, statics) && NewUnclaimed(pools.specs, tables.ram, nums0, st.nums)
    }

    lemma IsInitialised(name: string, nums0: Numbers, poolNames: seq<string>, statics: seq<string>,
                        order: seq<(string, u32)>, kept: seq<string>, nums: Numbers, drawn: seq<string>)
      requires Lists(order, nums0) && IsListed(pools.specs, order, kept)
      requires Fills(nums, nums0, poolNames)
      requires Drawn(pools.specs, tables.owners, tables.ram, name, nums0, nums, drawn)
      ensures Initialised(name, nums0, poolNames, statics, IfStatus(nums, statics + kept + drawn))
    {
      forall p | p in nums0 ensures nums[p] == nums0[p] { assert p in Only(nums, nums0.Keys); }
      AllAddresses(pools.specs, nums0, nums, order, statics, kept, drawn);
    }

    /** The numbers that an interface has, and new ones of the pools that it lacks; the addresses of all. */
    method InitNumbers(name: string, poolNames: seq<string>, statics: seq<string>) returns (st: IfStatus, ok: bool)
      requires Valid()
      modifies tables`owners, pools`value, pools.allocators.Values
      ensures Valid() && (ok ==> Initialised(name, old(tables.NumbersOf(name)), poolNames, statics, st))
      ensures PoolsDrawn(old(pools.value), pools.value, old(tables.NumbersOf(name)), st.nums)
      ensures ok <==> AllDrawable(old(pools.value), old(tables.NumbersOf(name)), poolNames)
      ensures !ok ==> Stopped(old(pools.value), old(tables.NumbersOf(name)), st.nums, poolNames)
    {
      var nums0 := tables.NumbersOf(name);
      st := IfStatus(nums0, statics);
      var order := Listing(nums0);
      var kept;
      kept, ok := MarkKept(order, name, nums0);
      if ok {
        var nums, drawn;
        nums, drawn, ok := DrawNumbers(name, poolNames, nums0);
        if ok { IsInitialised(name, nums0, poolNames, statics, order, kept, nums, drawn); }
        st := IfStatus(nums, statics + kept + drawn);
      }
    }

    /** Marks the numbers that an interface has again; they are in use, so that this does not fail. */
    method MarkKept(order: seq<(string, u32)>, ghost name: string, ghost nums0: Numbers)
      returns (addresses: seq<string>, ok: bool)
      requires Valid() && Lists(order, nums0) && Owned(tables.owners, name, nums0)
      modifies pools`value, pools.allocators.Values
      ensures Valid() && ok && IsListed(pools.specs, order, addresses) && pools.value == old(pools.value)
    {
      OwnAreMarked(pools.value, tables.owners, name, nums0, order);
      addresses, ok := MarkNumbers(order);
    }

    /**
     * The status of an interface: the numbers that it has are kept, missing ones are drawn, and its addresses, the
     * static ones and those of its numbers, are marked in all pools that they belong to. It fails exactly if a pool
     * that is named has no number left for it.
     */
    method InitInterfaceStatus(name: string, poolNames: seq<string>, statics: seq<string>)
      returns (st: IfStatus, ok: bool)
      requires Valid()
      modifies tables`owners, pools`value, pools.allocators.Values
      ensures Valid() && (ok ==> Initialised(name, old(tables.NumbersOf(name)), poolNames, statics, st))
      ensures Accounted(pools.specs, old(pools.value), pools.value, old(tables.NumbersOf(name)), st, ok)
      ensures ok <==> AllDrawable(old(pools.value), old(tables.NumbersOf(name)), poolNames)
      ensures !ok ==> Stopped(old(pools.value), old(tables.NumbersOf(name)), st.nums, poolNames)
    {
      ghost var ps, nums0 := pools.value, tables.NumbersOf(name);
      st, ok := InitNumbers(name, poolNames, statics);
      ghost var qs := pools.value;
      if ok { MarkOwn(st.ips); }
      IsAccounted(pools.specs, ps, qs, pools.value, nums0, st, ok);
    }

    method MarkOwn(texts: seq<string>)
      requires Valid()
      modifies pools`value, pools.allocators.Values
      ensures Valid() && TextsAdded(pools.specs, old(pools.value), pools.value, texts)
    {
      ghost var ps := pools.value;
      MarkAddresses(texts);
      InUseGrown(ps, pools.value, tables.owners);
      IpsStayMarked(pools.specs, ps, pools.value, tables.ram);
    }

    /** Keeps the status of an interface, or removes it after an error. */
    method RecordStatus(entity: string, name: string, st: IfStatus, ok: bool)
      requires Valid() && (ok ==> Owned(tables.owners, name, st.nums) && TextsMarked(pools.specs, pools.value, st.ips))
      modifies tables`ram, tables`status
      ensures Valid() && tables.ram == Recorded(old(tables.ram), name, st, ok)
      ensures tables.status == old(tables.status)[entity := Recorded(old(tables.StatusOf(entity)), name, st, ok)]
    {
      RecordedIsMarked(pools.specs, pools.value, tables.ram, name, st, ok);
      tables.Record(entity, name, st, ok);
    }

    /** A change of an entity. */
    method ApplyChange(c: Change) returns (crashed: bool)
      requires Valid()
      modifies tables`configured, tables`ram, tables`status, tables`stored
      ensures Valid() && crashed == Fatal(old(tables.Value()), c)
      ensures tables.Value() == Changed(old(tables.Value()), c)
    {
      ghost var ram := tables.ram;
      crashed := tables.Apply(c);
      KeptIsMarked(pools.specs, pools.value, ram, tables.ram);
    }

    /** Renders an interface of an entity: its status is kept in memory, or removed after an error. */
    method RenderInterface(entity: string, name: string, poolNames: seq<string>, statics: seq<string>)
      returns (st: IfStatus, ok: bool)
      requires Valid()
      modifies tables, pools`value, pools.allocators.Values
      ensures Valid() && RendersTo(pools.specs, old(Now()), entity, name, poolNames, statics, st, ok, Now())
    {
      ghost var a, nums0 := Now(), tables.NumbersOf(name);
      st, ok := InitInterfaceStatus(name, poolNames, statics);
      AccountedMarks(pools.specs, a.pools, pools.value, nums0, st, ok);
      RecordStatus(entity, name, st, ok);
      IsRendered(pools.specs, a, entity, name, poolNames, statics, st, ok, Now());
    }

    /**
     * Takes an interface of a stored status into memory, and marks its numbers and addresses; errors are not looked at.
     */
    method RestoreInterface(name: string, st: IfStatus)
      requires pools.Valid()
      modifies tables`ram, pools`value, pools.allocators.Values
      ensures pools.Valid() && Grown(old(pools.value), pools.value) && tables.ram == old(tables.ram)[name := st]
      ensures AllSettable(FreshPools(pools.specs), st.nums) ==>
                MarksMore(old(pools.value), pools.value, StatusClaims(pools.specs, st))
    {
      tables.ram := tables.ram[name := st];
      UpdateAllocators(st);
    }

    /** Marks the numbers of a stored status and, if all could be marked, its addresses. */
    method UpdateAllocators(st: IfStatus)
      requires pools.Valid()
      modifies pools`value, pools.allocators.Values
      ensures pools.Valid() && Grown(old(pools.value), pools.value)
      ensures AllSettable(FreshPools(pools.specs), st.nums) ==>
                MarksMore(old(pools.value), pools.value, StatusClaims(pools.specs, st))
    {
      var order := Listing(st.nums);
      ghost var ps := pools.value;
      var addresses, ok := MarkNumbers(order);
      if ok { MarkAddresses(st.ips); }
      RestoreMarks(pools.specs, ps, pools.value, st, order);
    }

    /** Takes the interfaces of one entity's stored status into memory. */
    method RestoreTable(t: Table)
      requires pools.Valid() && TableSettable(FreshPools(pools.specs), t)
      modifies tables`ram, pools`value, pools.allocators.Values
      ensures pools.Valid() && Grown(old(pools.value), pools.value)
      ensures tables.ram == old(tables.ram) + t
      ensures MarksMore(old(pools.value), pools.value, TableClaims(pools.specs, t))
    {
      var todo := t.Keys;
      ghost var ram, ps0 := tables.ram, pools.value;
      NothingRestored(pools.specs, pools.value, t);
      while todo != {}
        invariant todo <= t.Keys && pools.Valid() && Grown(old(pools.value), pools.value)
        invariant tables.ram == ram + (t - todo)
        invariant MarksMore(ps0, pools.value, TableClaims(pools.specs, t - todo))
      {
        var name :| name in todo;
        ghost var ps := pools.value;
        RestoreInterface(name, t[name]);
        GrownTransitive(old(pools.value), ps, pools.value);
        OneMoreRestored(pools.specs, ram, t, todo, name);
        MarksMoreTwice(ps0, ps, pools.value, TableClaims(pools.specs, t - todo), StatusClaims(pools.specs, t[name]));
        todo := todo - {name};
      }
      assert t - todo == t;
    }

    /** Takes the stored statuses of all entities into memory. */
    method RestoreAll()
      requires pools.Valid()
      requires forall e | e in tables.stored :: TableSettable(FreshPools(pools.specs), tables.stored[e])
      modifies tables`ram, pools`value, pools.allocators.Values
      ensures pools.Valid()
      ensures AllRestored(pools.specs, old(Now()), Now(), tables.stored.Keys)
    {
      var todo := tables.stored.Keys;
      ghost var a, done: set<string> := Now(), {};
      while todo != {}
        invariant todo <= tables.stored.Keys && pools.Valid()
        invariant done + todo == tables.stored.Keys && AllRestored(pools.specs, a, Now(), done)
      {
        var entity :| entity in todo;
        ghost var b := Now();
        RestoreTable(tables.stored[entity]);
        RestoredMore(pools.specs, a, b, Now(), done, entity);
        todo, done := todo - {entity}, done + {entity};
      }
      assert done == tables.stored.Keys;
    }

    /** The stored numbers can be marked again in new allocators, and each has its owner. */
    ghost predicate CanRestore()
      reads tables
    {
      && AllValid(pools.specs) && TablesOwned(tables.owners, tables.stored)
      && (forall e | e in tables.stored :: TableSettable(FreshPools(pools.specs), tables.stored[e]))
      && forall k | k in tables.owners :: Settable(FreshPools(pools.specs), k.0, k.1)
    }

    /** New allocators, and the statuses as the datastore has them. */
    method Reset()
      requires Valid()
      modifies tables`ram, tables`status, pools`value, pools.allocators.Values
      ensures pools.Valid() && CanRestore()
      ensures Now() == AsNew(pools.specs, old(tables.Value()))
    {
      StoredSettable(pools.specs, pools.value, tables.owners, tables.stored);
      pools.ResetAll();
      tables.Reload();
    }

    /** After the reload each number that is still marked has its owner. */
    ghost method Reown()
      requires pools.Valid() && CanRestore()
      requires AllRestored(pools.specs, AsNew(pools.specs, tables.Value()), Now(), tables.stored.Keys)
      modifies tables`owners
      ensures tables.Valid() && InUse(pools.value, tables.owners)
      ensures IpsMarked(pools.specs, pools.value, tables.ram)
    {
      OwnersRestored(pools.specs, tables.owners, AsNew(pools.specs, tables.Value()), Now());
      tables.Keep(StillMarked(pools.value, tables.owners));
    }

    /** A restart: what was in memory is gone, and the numbers in the stored statuses are marked in new allocators. */
    method Restart()
      requires Valid()
      modifies tables`ram, tables`status, tables`owners, pools`value, pools.allocators.Values
      ensures Valid()
      ensures AllRestored(pools.specs, AsNew(pools.specs, old(tables.Value())), Now(), tables.stored.Keys)
    {
      Reset();
      RestoreAll();
      Reown();
    }

    method Handle(e: Event) returns (crashed: bool)
      requires Valid()
      modifies tables, pools`value, pools.allocators.Values
      ensures Valid() && crashed == (e.Entity? && Fatal(old(tables.Value()), e.change))
      ensures if crashed then Now() == old(Now()) else Happens(pools.specs, old(Now()), e, Now())
    {
      crashed := false;
      match e {
        case Render(entity, name, poolNames, statics) =>
          var st, ok := RenderInterface(entity, name, poolNames, statics);
        case Entity(change) => crashed := ApplyChange(change);
        case Tunnel(pool) => var id, ok := DrawForTunnel(pool);
        case Restarted => Restart();
      }
    }

    /**
     * No run of renders, updates, deletions and restarts, in any order, gives one number of a pool to two interfaces;
     * nor does one that ends early, so that it goes on with a restart. What the run went through is told.
     */
    method Run(events: seq<Event>) returns (crashed: bool, ghost trace: seq<Snap>)
      requires Valid()
      modifies tables, pools`value, pools.allocators.Values
      ensures Valid() && tables.NoneShared() && IsRun(pools.specs, events, trace)
      ensures trace[0] == old(Now()) && trace[|trace| - 1] == Now()
      ensures if crashed then |trace| <= |events| && FatalEvent(Now(), events[|trace| - 1]) else |trace| == |events| + 1
    {
      crashed, trace := false, [Now()];
      for i := 0 to |events|
        invariant Valid() && |trace| == i + 1 && trace[0] == old(Now()) && trace[i] == Now()
        invariant IsRun(pools.specs, events, trace)
      {
        crashed := Handle(events[i]);
        if crashed { break; }
        trace := trace + [Now()];
      }
      tables.Unshared();
    }
  }

  /** What happens to interfaces, to the entities that they belong to, and to the controller. */
  datatype Event =
    | Render(entity: string, name: string, poolNames: seq<string>, statics: seq<string>)
    | Entity(change: Change)
    | Tunnel(pool: string)
    | Restarted

  /** A number has come into use for an interface that is not in memory. */
  ghost predicate Leaks(a: Snap, name: string, b: Snap)
  {
    name !in b.tables.ram && exists k :: k in Marks(b.pools) && k !in Marks(a.pools)
  }

  /** Some pool that is named has no number left for the interface, and another that is named before it has one. */
  ghost predicate SomeDrawable(ps: Pools, nums0: Numbers, poolNames: seq<string>)
    requires AllReady(ps)
  {
    !AllDrawable(ps, nums0, poolNames) && exists j :: DrawsTo(ps, nums0, poolNames, j)
  }

  /** The interface lacks a number of the pool at a position, and that pool and all before it have one for it. */
  ghost predicate DrawsTo(ps: Pools, nums0: Numbers, poolNames: seq<string>, j: nat)
    requires AllReady(ps)
  {
    j < |poolNames| && poolNames[j] !in nums0 && AllDrawable(ps, nums0, poolNames[..j + 1])
  }

  /**
   * Rendering an interface leaves numbers in use that nothing has exactly if one of the pools that it names has none
   * left for it and one that is named before that has: the numbers that were drawn already are not given back.
   */
  lemma LeaksExactlyIf(specs: map<string, PoolSpec>, a: Snap, entity: string, name: string, poolNames: seq<string>,
                       statics: seq<string>, st: IfStatus, ok: bool, b: Snap)
    requires RendersTo(specs, a, entity, name, poolNames, statics, st, ok, b)
    ensures Leaks(a, name, b) <==> SomeDrawable(a.pools, NumbersIn(a.tables.ram, name), poolNames)
  {
    var nums0 := NumbersIn(a.tables.ram, name);
    if !ok {
      var i :| StoppedAt(a.pools, nums0, st.nums, poolNames, i);
      DrawnBefore(a.pools, nums0, st.nums, poolNames, i);
      assert Marks(b.pools) == Marks(a.pools) + NewNums(nums0, st.nums);
    }
  }

  lemma DrawnBefore(ps: Pools, nums0: Numbers, nums: Numbers, poolNames: seq<string>, i: nat)
    requires AllReady(ps) && StoppedAt(ps, nums0, nums, poolNames, i)
    ensures NewNums(nums0, nums) != iset{} <==> exists j :: DrawsTo(ps, nums0, poolNames, j)
  {
    if k :| k in NewNums(nums0, nums) {
      var j :| 0 <= j < i && poolNames[j] == k.0;
      PartDrawable(ps, nums0, poolNames, i, j);
    }
    if j :| DrawsTo(ps, nums0, poolNames, j) {
      BeforeStop(ps, nums0, nums, poolNames, i, j);
      WasDrawn(nums0, nums, poolNames, i, j);
    }
  }

  lemma PartDrawable(ps: Pools, nums0: Numbers, poolNames: seq<string>, i: nat, j: nat)
    requires AllReady(ps) && j < i <= |poolNames| && poolNames[j] !in nums0 && AllDrawable(ps, nums0, poolNames[..i])
    ensures DrawsTo(ps, nums0, poolNames, j)
  {
    assert forall p | p in poolNames[..j + 1] :: p in poolNames[..i];
  }

  lemma WasDrawn(nums0: Numbers, nums: Numbers, poolNames: seq<string>, i: nat, j: nat)
    requires j < i <= |poolNames| && Fills(nums, nums0, poolNames[..i]) && poolNames[j] !in nums0
    ensures NewNums(nums0, nums) != iset{}
  {
    assert poolNames[j] in poolNames[..i];
    assert (poolNames[j], nums[poolNames[j]] as int) in NewNums(nums0, nums);
  }

  lemma BeforeStop(ps: Pools, nums0: Numbers, nums: Numbers, poolNames: seq<string>, i: nat, j: nat)
    requires AllReady(ps) && StoppedAt(ps, nums0, nums, poolNames, i) && DrawsTo(ps, nums0, poolNames, j)
    ensures j < i
  {}

  /** An input on which it does: the interface names p, which has ten numbers, and then q, which is not there. */
  lemma LeakExample()
    ensures var ps: Pools := map["p" := Pool(1, 10, 1, {})]; AllReady(ps) && SomeDrawable(ps, map[], ["p", "q"])
  {
    var ps: Pools := map["p" := Pool(1, 10, 1, {})];
    assert LeastClear({}, 1, 10) == 1;
    assert CanDraw(ps, "p") && !CanDraw(ps, "q");
    var names := ["p", "q"];
    assert names[..1] == ["p"] && names[1] in names;
    assert DrawsTo(ps, map[], names, 0);
  }

  /**
   * An input on which a static address is drawn for another interface: with its prefix length it is not taken for an
   * address, so that its number is free.
   */
  lemma PrefixedStaticIsDrawn(net: Network)
    requires net.Valid()
    ensures var p, text := Pool(1, 10, 1, {}), FormatIPAddress(net, 1);
            && MarkAddress(p, net, text) == p && Step(p, Allocate).1 == Allocated(1)
  {
    PrefixedMarksNothing(Pool(1, 10, 1, {}), net, 1);
    assert LeastClear({}, 1, 10) == 1;
  }

  ghost predicate FatalEvent(a: Snap, e: Event) { e.Entity? && Fatal(a.tables, e.change) }

  /** What an event makes of the tables and the pools. */
  ghost predicate Happens(specs: map<string, PoolSpec>, a: Snap, e: Event, b: Snap)
  {
    match e
    case Render(entity, name, poolNames, statics) =>
      exists st, ok :: RendersTo(specs, a, entity, name, poolNames, statics, st, ok, b)
    case Entity(change) => !Fatal(a.tables, change) && b == a.(tables := Changed(a.tables, change))
    case Tunnel(pool) =>
      && AllReady(a.pools) && b.tables == a.tables
      && if CanDraw(a.pools, pool) then exists id :: DrawnFrom(a.pools, b.pools, pool, id) else b == a
    case Restarted =>
      AllValid(specs) && AllRestored(specs, AsNew(specs, a.tables), b, a.tables.stored.Keys)
  }

  /** A run: what each event makes of what the events before it left. */
  ghost predicate IsRun(specs: map<string, PoolSpec>, events: seq<Event>, trace: seq<Snap>)
  {
    && 1 <= |trace| <= |events| + 1
    && forall i, k {:trigger Happens(specs, trace[i], events[i], trace[k])} | 0 <= i && k == i + 1 < |trace| ::
         Happens(specs, trace[i], events[i], trace[k])
  }

  /** Events that write the stored status of an entity, or take it away. */
  predicate Stores(e: Event, entity: string) { e.Entity? && e.change.entity == entity && !e.change.Begin? }

  /** The last of the first n events that does is at j, or there is none and j is -1. */
  ghost predicate LastStores(events: seq<Event>, n: nat, entity: string, j: int)
    requires n <= |events|
  {
    -1 <= j < n && (j >= 0 ==> Stores(events[j], entity)) && forall t | j < t < n :: !Stores(events[t], entity)
  }

  ghost predicate SameIn(x: map<string, Table>, y: map<string, Table>, entity: string)
  {
    (entity in x <==> entity in y) && (entity in x ==> x[entity] == y[entity])
  }

  lemma StoredStep(specs: map<string, PoolSpec>, a: Snap, e: Event, b: Snap, entity: string)
    requires Happens(specs, a, e, b)
    ensures !Stores(e, entity) ==> SameIn(b.tables.stored, a.tables.stored, entity)
    ensures e.Entity? ==> !Fatal(a.tables, e.change) && b.tables == Changed(a.tables, e.change)
  {}

  lemma StoredNotDecided(specs: map<string, PoolSpec>, events: seq<Event>, trace: seq<Snap>, entity: string, j: int,
                         n: nat)
    requires IsRun(specs, events, trace) && LastStores(events, |trace| - 1, entity, j) && j + 1 < n < |trace|
    ensures SameIn(trace[n].tables.stored, trace[n - 1].tables.stored, entity)
  {
    StoredStep(specs, trace[n - 1], events[n - 1], trace[n], entity);
  }

  lemma {:induction false} StoredKept(specs: map<string, PoolSpec>, events: seq<Event>, trace: seq<Snap>,
                                      entity: string, j: int, n: nat)
    requires IsRun(specs, events, trace) && LastStores(events, |trace| - 1, entity, j) && j < n < |trace|
    ensures SameIn(trace[n].tables.stored, trace[j + 1].tables.stored, entity)
  {
    if j < n - 1 {
      StoredKept(specs, events, trace, entity, j, n - 1);
      StoredNotDecided(specs, events, trace, entity, j, n);
    }
  }

  /**
   * Over every run the stored status of an entity is the one that it had when it was last rendered completely; an
   * update or a deletion since has taken it away, and a restart changes nothing in it.
   */
  lemma StoredIs(specs: map<string, PoolSpec>, events: seq<Event>, trace: seq<Snap>, entity: string, j: int)
    requires IsRun(specs, events, trace) && LastStores(events, |trace| - 1, entity, j)
    ensures var stored := trace[|trace| - 1].tables.stored;
            if j == -1 then SameIn(stored, trace[0].tables.stored, entity)
            else match events[j].change
              case Complete(_) => entity in stored && stored[entity] == TableIn(trace[j].tables.status, entity)
              case Updated(_) => entity !in stored
              case Deleted(_) =>
                if entity in trace[j].tables.configured then entity !in stored
                else SameIn(stored, trace[j].tables.stored, entity)
              case _ => false
  {
    StoredKept(specs, events, trace, entity, j, |trace| - 1);
    if j >= 0 { StoredStep(specs, trace[j], events[j], trace[j + 1], entity); }
  }

  ghost predicate SameRow(t: Table, u: Table, name: string)
  {
    (name in t <==> name in u) && (name in t ==> t[name] == u[name])
  }

  /** Events that decide whether an interface is in memory. */
  ghost predicate DecidesRam(a: Snap, e: Event, name: string)
  {
    match e
    case Render(_, n, _, _) => n == name
    case Entity(c) => c.Deleted? && c.entity in a.tables.configured && name in TableIn(a.tables.status, c.entity)
    case Tunnel(_) => false
    case Restarted => true
  }

  /** What an event that decides it leaves of an interface in memory. */
  ghost predicate RamDecided(specs: map<string, PoolSpec>, a: Snap, e: Event, ram: Table, name: string)
  {
    match e
    case Render(_, _, poolNames, statics) =>
      var nums0 := NumbersIn(a.tables.ram, name);
      && AllReady(a.pools) && (name in ram <==> AllDrawable(a.pools, nums0, poolNames))
      && (name in ram ==> Fills(ram[name].nums, nums0, poolNames) && AddressesAre(specs, ram[name], statics))
    case Entity(_) => name !in ram
    case Tunnel(_) => true
    case Restarted => name in ram <==> exists x :: x in a.tables.stored && name in a.tables.stored[x]
  }

  lemma RamStep(specs: map<string, PoolSpec>, a: Snap, e: Event, b: Snap, name: string)
    requires Happens(specs, a, e, b)
    ensures if DecidesRam(a, e, name) then RamDecided(specs, a, e, b.tables.ram, name)
            else SameRow(b.tables.ram, a.tables.ram, name)
  {
    if e.Restarted? {
      if name in b.tables.ram {
        assert InSome(name, b.tables.ram[name], map[], a.tables.stored, a.tables.stored.Keys);
      }
    }
  }

  lemma SameIsDecided(specs: map<string, PoolSpec>, a: Snap, e: Event, t: Table, u: Table, name: string)
    requires RamDecided(specs, a, e, t, name) && SameRow(u, t, name)
    ensures RamDecided(specs, a, e, u, name)
  {}

  ghost predicate LastDecidesRam(events: seq<Event>, trace: seq<Snap>, name: string, j: int)
    requires |trace| <= |events| + 1
  {
    && -1 <= j < |trace| - 1 && (j >= 0 ==> DecidesRam(trace[j], events[j], name))
    && forall t | j < t < |trace| - 1 :: !DecidesRam(trace[t], events[t], name)
  }

  lemma RamNotDecided(specs: map<string, PoolSpec>, events: seq<Event>, trace: seq<Snap>, name: string, j: int, n: nat)
    requires IsRun(specs, events, trace) && LastDecidesRam(events, trace, name, j) && j + 1 < n < |trace|
    ensures SameRow(trace[n].tables.ram, trace[n - 1].tables.ram, name)
  {
    assert !DecidesRam(trace[n - 1], events[n - 1], name);
    RamStep(specs, trace[n - 1], events[n - 1], trace[n], name);
  }

  lemma {:induction false} RamKept(specs: map<string, PoolSpec>, events: seq<Event>, trace: seq<Snap>, name: string,
                                   j: int, n: nat)
    requires IsRun(specs, events, trace) && LastDecidesRam(events, trace, name, j) && j < n < |trace|
    ensures SameRow(trace[n].tables.ram, trace[j + 1].tables.ram, name)
  {
    if j < n - 1 {
      RamKept(specs, events, trace, name, j, n - 1);
      RamNotDecided(specs, events, trace, name, j, n);
    }
  }

  lemma RamDecidedAt(specs: map<string, PoolSpec>, events: seq<Event>, trace: seq<Snap>, name: string, j: nat)
    requires IsRun(specs, events, trace) && j < |trace| - 1 && DecidesRam(trace[j], events[j], name)
    ensures RamDecided(specs, trace[j], events[j], trace[j + 1].tables.ram, name)
  {
    RamStep(specs, trace[j], events[j], trace[j + 1], name);
  }

  /**
   * Over every run an interface is in memory as the last event that decides it left it: rendered with numbers of all
   * its pools, gone with its entity, or read back at a restart.
   */
  lemma RamIs(specs: map<string, PoolSpec>, events: seq<Event>, trace: seq<Snap>, name: string, j: int)
    requires IsRun(specs, events, trace) && LastDecidesRam(events, trace, name, j)
    ensures var ram := trace[|trace| - 1].tables.ram;
            if j == -1 then SameRow(ram, trace[0].tables.ram, name)
            else RamDecided(specs, trace[j], events[j], ram, name)
  {
    RamKept(specs, events, trace, name, j, |trace| - 1);
    if j >= 0 {
      RamDecidedAt(specs, events, trace, name, j);
      SameIsDecided(specs, trace[j], events[j], trace[j + 1].tables.ram, trace[|trace| - 1].tables.ram, name);
    }
  }

  /** Events that decide whether an interface is in the status of an entity. */
  ghost predicate DecidesStatus(a: Snap, e: Event, entity: string, name: string)
  {
    match e
    case Render(x, n, _, _) => x == entity && n == name
    case Entity(c) => c.entity == entity && !c.Complete? && (c.Deleted? ==> entity in a.tables.configured)
    case Tunnel(_) => false
    case Restarted => true
  }

  ghost predicate LastDecidesStatus(events: seq<Event>, trace: seq<Snap>, entity: string, name: string, j: int)
    requires |trace| <= |events| + 1
  {
    && -1 <= j < |trace| - 1 && (j >= 0 ==> DecidesStatus(trace[j], events[j], entity, name))
    && forall t | j < t < |trace| - 1 :: !DecidesStatus(trace[t], events[t], entity, name)
  }

  /** What an event that decides it, from a to b, leaves of an interface in the status of an entity. */
  ghost predicate StatusDecided(a: Snap, e: Event, b: Snap, t: Table, entity: string, name: string)
  {
    match e
    case Render(_, _, _, _) => SameRow(t, b.tables.ram, name)
    case Restarted => SameRow(t, TableIn(a.tables.stored, entity), name)
    case _ => name !in t
  }

  lemma StatusStep(specs: map<string, PoolSpec>, a: Snap, e: Event, b: Snap, entity: string, name: string)
    requires Happens(specs, a, e, b)
    ensures var t := TableIn(b.tables.status, entity);
            if DecidesStatus(a, e, entity, name) then StatusDecided(a, e, b, t, entity, name)
            else SameRow(t, TableIn(a.tables.status, entity), name)
  {}

  lemma SameStatusIsDecided(a: Snap, e: Event, b: Snap, t: Table, u: Table, entity: string, name: string)
    requires StatusDecided(a, e, b, t, entity, name) && SameRow(u, t, name)
    ensures StatusDecided(a, e, b, u, entity, name)
  {}

  lemma {:induction false} StatusKept(specs: map<string, PoolSpec>, events: seq<Event>, trace: seq<Snap>,
                                      entity: string, name: string, j: int, n: nat)
    requires IsRun(specs, events, trace) && LastDecidesStatus(events, trace, entity, name, j) && j < n < |trace|
    ensures SameRow(TableIn(trace[n].tables.status, entity), TableIn(trace[j + 1].tables.status, entity), name)
  {
    if j < n - 1 {
      StatusKept(specs, events, trace, entity, name, j, n - 1);
      NotDecided(specs, events, trace, entity, name, j, n);
    }
  }

  lemma NotDecided(specs: map<string, PoolSpec>, events: seq<Event>, trace: seq<Snap>, entity: string, name: string,
                   j: int, n: nat)
    requires IsRun(specs, events, trace) && LastDecidesStatus(events, trace, entity, name, j) && j + 1 < n < |trace|
    ensures SameRow(TableIn(trace[n].tables.status, entity), TableIn(trace[n - 1].tables.status, entity), name)
  {
    assert !DecidesStatus(trace[n - 1], events[n - 1], entity, name);
    StatusStep(specs, trace[n - 1], events[n - 1], trace[n], entity, name);
  }

  lemma StatusDecidedAt(specs: map<string, PoolSpec>, events: seq<Event>, trace: seq<Snap>, entity: string,
                        name: string, j: nat)
    requires IsRun(specs, events, trace) && j < |trace| - 1 && DecidesStatus(trace[j], events[j], entity, name)
    ensures StatusDecided(trace[j], events[j], trace[j + 1], TableIn(trace[j + 1].tables.status, entity), entity, name)
  {
    StatusStep(specs, trace[j], events[j], trace[j + 1], entity, name);
  }

  /**
   * Over every run the status of an entity has an interface exactly if the interface was last rendered without an error
   * since the entity's rendering began; a restart takes it as the datastore has it.
   */
  lemma StatusIs(specs: map<string, PoolSpec>, events: seq<Event>, trace: seq<Snap>, entity: string, name: string,
                 j: int)
    requires IsRun(specs, events, trace) && LastDecidesStatus(events, trace, entity, name, j)
    ensures var t := TableIn(trace[|trace| - 1].tables.status, entity);
            if j == -1 then SameRow(t, TableIn(trace[0].tables.status, entity), name)
            else StatusDecided(trace[j], events[j], trace[j + 1], t, entity, name)
  {
    StatusKept(specs, events, trace, entity, name, j, |trace| - 1);
    if j >= 0 {
      StatusDecidedAt(specs, events, trace, entity, name, j);
      SameStatusIsDecided(trace[j], events[j], trace[j + 1], TableIn(trace[j + 1].tables.status, entity),
                          TableIn(trace[|trace| - 1].tables.status, entity), entity, name);
    }
  }

  /** The numbers that an interface has or that its addresses stand for. */
  ghost function StatusClaims(specs: map<string, PoolSpec>, st: IfStatus): iset<(string, int)>
  {
    NumsOf(st.nums) + TextClaims(specs, st.ips)
  }

  ghost predicate InTable(specs: map<string, PoolSpec>, t: Table, k: (string, int))
  {
    exists n :: n in t && k in StatusClaims(specs, t[n])
  }

  ghost predicate InStored(specs: map<string, PoolSpec>, stored: map<string, Table>, done: set<string>,
                           k: (string, int))
  {
    exists e :: e in done && e in stored && k in TableClaims(specs, stored[e])
  }

  /** The given numbers were marked, and no others. */
  ghost predicate MarksMore(ps: Pools, qs: Pools, claims: iset<(string, int)>) { Marks(qs) == Marks(ps) + claims }

  lemma MarksMoreTwice(ps: Pools, qs: Pools, rs: Pools, x: iset<(string, int)>, y: iset<(string, int)>)
    requires MarksMore(ps, qs, x) && MarksMore(qs, rs, y)
    ensures MarksMore(ps, rs, x + y)
  {}

  ghost function TableClaims(specs: map<string, PoolSpec>, t: Table): iset<(string, int)>
  {
    iset k: (string, int) | InTable(specs, t, k)
  }

  /** Those of the interfaces in some of the stored statuses. */
  ghost function StoredClaims(specs: map<string, PoolSpec>, stored: map<string, Table>,
                              done: set<string>): iset<(string, int)>
  {
    iset k: (string, int) | InStored(specs, stored, done, k)
  }

  ghost predicate TableSettable(ps: Pools, t: Table) { forall n | n in t :: AllSettable(ps, t[n].nums) }

  ghost predicate TableMarked(specs: map<string, PoolSpec>, ps: Pools, t: Table) { TableClaims(specs, t) <= Marks(ps) }

  lemma OneMoreRestored(specs: map<string, PoolSpec>, ram: Table, t: Table, todo: set<string>, name: string)
    requires name in todo && todo <= t.Keys
    ensures TableClaims(specs, t - (todo - {name})) == TableClaims(specs, t - todo) + StatusClaims(specs, t[name])
    ensures (ram + (t - todo))[name := t[name]] == ram + (t - (todo - {name}))
  {
    var done, more := t - todo, t - (todo - {name});
    forall k: (string, int)
      ensures k in TableClaims(specs, more) <==> k in TableClaims(specs, done) || k in StatusClaims(specs, t[name])
    {
      if n :| n in more && k in StatusClaims(specs, more[n]) {
        if n != name { assert n in done && done[n] == more[n]; }
      }
      if n :| n in done && k in StatusClaims(specs, done[n]) { assert n in more && more[n] == done[n]; }
      if k in StatusClaims(specs, t[name]) { assert name in more && more[name] == t[name]; }
    }
  }

  lemma NothingRestored(specs: map<string, PoolSpec>, ps: Pools, t: Table)
    ensures t - t.Keys == map[] && MarksMore(ps, ps, TableClaims(specs, t - t.Keys))
  {}

  lemma OneMoreStored(specs: map<string, PoolSpec>, stored: map<string, Table>, done: set<string>, entity: string)
    requires entity in stored
    ensures StoredClaims(specs, stored, done + {entity}) ==
              StoredClaims(specs, stored, done) + TableClaims(specs, stored[entity])
  {
    forall k: (string, int)
      ensures k in StoredClaims(specs, stored, done + {entity}) <==>
                k in StoredClaims(specs, stored, done) || k in TableClaims(specs, stored[entity])
    {
      if e :| e in done && e in stored && k in TableClaims(specs, stored[e]) { assert e in done + {entity}; }
      if k in TableClaims(specs, stored[entity]) { assert entity in done + {entity}; }
    }
  }

  /** New allocators, and the tables as the datastore has them. */
  ghost function AsNew(specs: map<string, PoolSpec>, t: Tables): Snap
    requires AllValid(specs)
  {
    Snap(Tables(t.configured, map[], t.stored, t.stored), FreshPools(specs))
  }

  /**
   * The interfaces in the stored statuses of the given entities are in memory, as some stored status has them, and
   * exactly their numbers and addresses are marked.
   */
  ghost predicate AllRestored(specs: map<string, PoolSpec>, a: Snap, b: Snap, done: set<string>)
  {
    var stored := a.tables.stored;
    && b.tables == a.tables.(ram := b.tables.ram) && MarksMore(a.pools, b.pools, StoredClaims(specs, stored, done))
    && RamRestored(a.tables.ram, b.tables.ram, stored, done)
  }

  ghost predicate RamRestored(ram0: Table, ram: Table, stored: map<string, Table>, done: set<string>)
  {
    && (forall e | e in done && e in stored :: stored[e].Keys <= ram.Keys)
    && (forall n | n in ram :: InSome(n, ram[n], ram0, stored, done))
  }

  ghost predicate InSome(n: string, st: IfStatus, ram0: Table, stored: map<string, Table>, done: set<string>)
  {
    (n in ram0 && ram0[n] == st) || exists e :: e in done && e in stored && n in stored[e] && stored[e][n] == st
  }

  lemma RestoredMore(specs: map<string, PoolSpec>, a: Snap, b: Snap, c: Snap, done: set<string>, entity: string)
    requires AllRestored(specs, a, b, done) && entity in a.tables.stored
    requires c.tables == b.tables.(ram := b.tables.ram + a.tables.stored[entity])
    requires MarksMore(b.pools, c.pools, TableClaims(specs, a.tables.stored[entity]))
    ensures AllRestored(specs, a, c, done + {entity})
  {
    var stored := a.tables.stored;
    OneMoreStored(specs, stored, done, entity);
    MarksMoreTwice(a.pools, b.pools, c.pools, StoredClaims(specs, stored, done), TableClaims(specs, stored[entity]));
    RamMore(a.tables.ram, b.tables.ram, stored, done, entity);
  }

  lemma RamMore(ram0: Table, ram: Table, stored: map<string, Table>, done: set<string>, entity: string)
    requires RamRestored(ram0, ram, stored, done) && entity in stored
    ensures RamRestored(ram0, ram + stored[entity], stored, done + {entity})
  {
    var more := ram + stored[entity];
    forall n | n in more ensures InSome(n, more[n], ram0, stored, done + {entity}) {
      InSomeMore(ram0, ram, stored, done, entity, n);
    }
  }

  lemma InSomeMore(ram0: Table, ram: Table, stored: map<string, Table>, done: set<string>, entity: string, n: string)
    requires entity in stored && n in ram + stored[entity] && (n in ram ==> InSome(n, ram[n], ram0, stored, done))
    ensures InSome(n, (ram + stored[entity])[n], ram0, stored, done + {entity})
  {
    if n in stored[entity] {
      assert entity in done + {entity};
    } else if !(n in ram0 && ram0[n] == ram[n]) {
      var e :| e in done && e in stored && n in stored[e] && stored[e][n] == ram[n];
      assert e in done + {entity};
    }
  }

  lemma StoredSettable(specs: map<string, PoolSpec>, ps: Pools, owners: Owners, stored: map<string, Table>)
    requires AllValid(specs) && Grown(FreshPools(specs), ps) && InUse(ps, owners) && TablesOwned(owners, stored)
    ensures forall e | e in stored :: TableSettable(FreshPools(specs), stored[e])
    ensures forall k | k in owners :: Settable(FreshPools(specs), k.0, k.1)
  {
    forall e, n, p | e in stored && n in stored[e] && p in stored[e][n].nums
      ensures Settable(FreshPools(specs), p, stored[e][n].nums[p])
    {
      assert TableOwned(owners, stored[e]) && Owned(owners, n, stored[e][n].nums);
      assert (p, stored[e][n].nums[p]) in owners;
    }
  }

  /** The owners of numbers that are still marked. */
  ghost function StillMarked(ps: Pools, owners: Owners): Owners
  {
    map k | k in owners && Marked(ps, k.0, k.1) :: owners[k]
  }

  lemma StillOwned(specs: map<string, PoolSpec>, ps: Pools, owners: Owners, t: Table)
    requires TableOwned(owners, t) && TableMarked(specs, ps, t)
    ensures TableOwned(StillMarked(ps, owners), t)
  {
    forall n, p | n in t && p in t[n].nums
      ensures (p, t[n].nums[p]) in StillMarked(ps, owners) && StillMarked(ps, owners)[(p, t[n].nums[p])] == n
    {
      assert Owned(owners, n, t[n].nums);
      assert (p, t[n].nums[p] as int) in StatusClaims(specs, t[n]);
      assert (p, t[n].nums[p] as int) in TableClaims(specs, t);
    }
  }

  lemma OwnersRestored(specs: map<string, PoolSpec>, owners: Owners, a: Snap, b: Snap)
    requires AllRestored(specs, a, b, a.tables.stored.Keys) && a.tables.ram == map[]
    requires a.tables.status == a.tables.stored
    requires Grown(a.pools, b.pools) && TablesOwned(owners, a.tables.stored)
    requires forall k | k in owners :: Settable(a.pools, k.0, k.1)
    ensures InUse(b.pools, StillMarked(b.pools, owners))
    ensures AllOwned(StillMarked(b.pools, owners), b.tables.ram, b.tables.status, b.tables.stored)
    ensures IpsMarked(specs, b.pools, b.tables.ram)
  {
    var stored, still := a.tables.stored, StillMarked(b.pools, owners);
    forall e | e in stored ensures TableMarked(specs, b.pools, stored[e]) && TableOwned(still, stored[e]) {
      forall k | k in TableClaims(specs, stored[e]) ensures k in Marks(b.pools) {
        assert InStored(specs, stored, stored.Keys, k);
      }
      StillOwned(specs, b.pools, owners, stored[e]);
    }
    forall n | n in b.tables.ram
      ensures Owned(still, n, b.tables.ram[n].nums) && TextsMarked(specs, b.pools, b.tables.ram[n].ips)
    {
      RestoredIsMarked(specs, still, a, b, n);
    }
    forall k | k in Claims(specs, b.tables.ram) ensures k in Marks(b.pools) {
      var n :| n in b.tables.ram && ClaimedBy(specs, b.tables.ram[n], k);
      assert TextsMarked(specs, b.pools, b.tables.ram[n].ips);
    }
  }

  lemma RestoredIsMarked(specs: map<string, PoolSpec>, owners: Owners, a: Snap, b: Snap, n: string)
    requires AllRestored(specs, a, b, a.tables.stored.Keys) && a.tables.ram == map[] && n in b.tables.ram
    requires TablesOwned(owners, a.tables.stored)
    requires forall e | e in a.tables.stored :: TableMarked(specs, b.pools, a.tables.stored[e])
    ensures Owned(owners, n, b.tables.ram[n].nums) && TextsMarked(specs, b.pools, b.tables.ram[n].ips)
  {
    var stored := a.tables.stored;
    assert InSome(n, b.tables.ram[n], map[], stored, stored.Keys);
    var e :| e in stored && n in stored[e] && stored[e][n] == b.tables.ram[n];
    assert TableOwned(owners, stored[e]) && TableMarked(specs, b.pools, stored[e]);
    forall k | k in TextClaims(specs, b.tables.ram[n].ips) ensures k in Marks(b.pools) {
      assert k in StatusClaims(specs, stored[e][n]);
      assert InTable(specs, stored[e], k);
    }
  }

  lemma RestoreMarks(specs: map<string, PoolSpec>, ps: Pools, qs: Pools, st: IfStatus, order: seq<(string, u32)>)
    requires AllValid(specs) && Grown(FreshPools(specs), ps) && AllReady(ps) && Lists(order, st.nums)
    requires var (rs, ok) := MarkAll(ps, order); if ok then TextsAdded(specs, rs, qs, st.ips) else qs == rs
    ensures Grown(ps, qs)
    ensures AllSettable(FreshPools(specs), st.nums) ==> MarksMore(ps, qs, StatusClaims(specs, st))
  {
    var rs := MarkAll(ps, order).0;
    GrownTransitive(ps, rs, qs);
    SucceedsExactlyIf(ps, order);
    if AllSettable(FreshPools(specs), st.nums) {
      AddedMarks(specs, rs, qs, st.ips);
      NumbersMarked(ps, st.nums, order);
    }
  }

  lemma NumbersMarked(ps: Pools, nums: Numbers, order: seq<(string, u32)>)
    requires AllReady(ps) && Lists(order, nums) && MarkAll(ps, order).1
    ensures Marks(MarkAll(ps, order).0) == Marks(ps) + NumsOf(nums)
  {
    forall k: (string, int) ensures k in Marks(MarkAll(ps, order).0) <==> k in Marks(ps) || k in NumsOf(nums) {
      MarksThese(ps, order, k);
      if k in NumsOf(nums) { assert (k.0, nums[k.0]) in order; }
    }
  }

  /** A number that was drawn gets its owner. */
  lemma DrawKeeps(ps: Pools, qs: Pools, owners: Owners, pool: string, id: u32, name: string)
    requires InUse(ps, owners) && DrawnFrom(ps, qs, pool, id)
    ensures (pool, id) !in owners && InUse(qs, owners[(pool, id) := name])
  {
    DrawnIs(ps, qs, pool, id);
    InUseGrown(ps, qs, owners);
  }

  lemma OwnersGrow(owners: Owners, more: Owners, k: (string, u32), ram: Table, status: map<string, Table>,
                   stored: map<string, Table>)
    requires k !in owners && k in more && more == owners[k := more[k]]
    requires AllOwned(owners, ram, status, stored)
    ensures AllOwned(more, ram, status, stored)
  {
    forall e | e in status ensures TableOwned(more, status[e]) {}
    forall e | e in stored ensures TableOwned(more, stored[e]) {}
  }
}
