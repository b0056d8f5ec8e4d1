/** The pools of ipampool.go that all entities share: one allocator a pool name. */
module PoolNumbers {
  import opened Text
  import opened Unsigned
  import opened Runs
  import opened Addresses
  import opened Ipam

  type Pools = map<string, Pool>

  /** A pool as it is configured; a 0 stands for the default. */
  datatype PoolSpec = PoolSpec(start: u32, end: u32, net: Network) {
    function Start(): u32 { if start == 0 then 1 else start }

    function End(): u32
      requires net.bits <= 32
    {
      if end == 0 then DefaultEnd(net.bits) else end
    }

    /** The scan of the range ends. */
    ghost predicate Valid() { net.bits <= 32 && End() < U32 - 1 }
  }

  ghost predicate AllValid(specs: map<string, PoolSpec>) { forall n | n in specs :: specs[n].Valid() }

  ghost function FreshPool(s: PoolSpec): Pool
    requires s.Valid()
  {
    Pool(s.Start(), s.End(), s.Start(), {})
  }

  /** A pool without a configured range has the ids from 1 up to the last but one of its network. */
  lemma DefaultRangeIs(s: PoolSpec)
    requires s.Valid() && s.start == 0 && s.end == 0
    ensures FreshPool(s).start == 1 && FreshPool(s).end == Pow2(32 - s.net.bits) - 2
  {
    DefaultRangeFits(s.net);
  }

  /** The first number that is drawn from a new pool is the first one of its range, by example. */
  lemma FirstDrawExample()
    ensures var s := PoolSpec(0, 0, Network(0x0A05_0300, 24));
            && s.Valid() && Step(FreshPool(s), Allocate).1 == Allocated(1)
            && FormatIPAddress(s.net, 1) == "10.5.3.1" + "/" + "24"
  {
    var s := PoolSpec(0, 0, Network(0x0A05_0300, 24));
    assert Pow2(8) == 0x100 && Low(0x0A05_0300, 8) == 0;
    DefaultRangeFits(s.net);
    DefaultRangeIs(s);
    assert LeastClear({}, 1, 254) == 1;
    AddressGivesId(s.net, 1);
    DottedOfFirst();
    assert Decimal(24) == "24";
  }

  lemma DottedOfFirst()
    ensures Dotted(0x0A05_0301) == "10.5.3.1"
  {
    DottedFour(10, 5, 3, 1);
    FewDigits();
    assert Decimal(1) == "1";
    assert Octets(0x0A05_0301) == [10, 5, 3, 1];
  }

  /** The allocators of a configuration at startup. */
  ghost function FreshPools(specs: map<string, PoolSpec>): Pools
    requires AllValid(specs)
  {
    map n | n in specs :: FreshPool(specs[n])
  }

  ghost predicate AllReady(ps: Pools) { forall n | n in ps :: Short(ps[n]) }

  /** The pools of ps with more ids in use. */
  ghost predicate Grown(ps: Pools, qs: Pools)
  {
    && ps.Keys == qs.Keys
    && forall n | n in ps :: qs[n].start == ps[n].start && qs[n].end == ps[n].end && ps[n].used <= qs[n].used
  }

  lemma GrownTransitive(ps: Pools, qs: Pools, rs: Pools)
    requires Grown(ps, qs) && Grown(qs, rs)
    ensures Grown(ps, rs)
  {}

  /** A number that can be marked: its pool is there and has it in range. */
  predicate Settable(ps: Pools, pool: string, id: u32) { pool in ps && ps[pool].start <= id <= ps[pool].end }

  ghost function MarkIn(ps: Pools, pool: string, id: u32): (qs: Pools)
    requires AllReady(ps) && Settable(ps, pool, id)
    ensures AllReady(qs) && Grown(ps, qs) && qs[pool].used == ps[pool].used + {id}
    ensures forall n | n in ps && n != pool :: qs[n] == ps[n]
  {
    ps[pool := Step(ps[pool], Mark(id)).0]
  }

  /** A number can be drawn: the pool is there and has one left. */
  ghost predicate CanDraw(ps: Pools, pool: string)
    requires AllReady(ps)
  {
    pool in ps && Step(ps[pool], Allocate).1.Allocated?
  }

  /** A number was drawn from a pool, and nothing else was done. */
  ghost predicate DrawnFrom(ps: Pools, qs: Pools, pool: string, id: u32)
  {
    && pool in ps && pool in qs && Short(ps[pool]) && Step(ps[pool], Allocate) == (qs[pool], Allocated(id))
    && qs == ps[pool := qs[pool]]
  }

  /** A number that is drawn was free before and is in use now, and no other is. */
  lemma DrawnIs(ps: Pools, qs: Pools, pool: string, id: u32)
    requires DrawnFrom(ps, qs, pool, id)
    ensures Settable(ps, pool, id) && id !in ps[pool].used && qs[pool].used == ps[pool].used + {id} && Grown(ps, qs)
  {
    DrawIsFresh(ps[pool]);
  }

  /** The text of a number's address, with the prefix length of its pool's network. */
  ghost function AddressIn(specs: map<string, PoolSpec>, pool: string, id: u32): string
    requires pool in specs
  {
    FormatIPAddress(specs[pool].net, id)
  }

  /** The number of a pool that a text is the bare address of. */
  ghost predicate IsAddressOf(specs: map<string, PoolSpec>, pool: string, text: string, id: int)
  {
    pool in specs && specs[pool].net.bits <= 32 && 0 <= id < U32 && InsideId(specs[pool].net, text) == Some(id)
  }

  /** The texts, and nothing else, are marked in all pools whose networks they lie in. */
  ghost predicate TextsAdded(specs: map<string, PoolSpec>, ps: Pools, qs: Pools, texts: seq<string>)
  {
    && Grown(ps, qs)
    && forall n, id | n in qs && n in ps ::
         id in qs[n].used <==> id in ps[n].used || exists t :: t in texts && IsAddressOf(specs, n, t, id)
  }

  lemma OneMoreText(specs: map<string, PoolSpec>, ps: Pools, qs: Pools, rs: Pools, texts: seq<string>, text: string)
    requires TextsAdded(specs, ps, qs, texts) && Grown(qs, rs) && Consistent(specs, qs)
    requires forall n | n in qs :: rs[n] == MarkAddress(qs[n], specs[n].net, text)
    ensures TextsAdded(specs, ps, rs, texts + [text])
  {
    GrownTransitive(ps, qs, rs);
    forall n, id | n in rs && n in ps
      ensures id in rs[n].used <==> id in ps[n].used || exists t :: t in texts + [text] && IsAddressOf(specs, n, t, id)
    {
      MarksOne(specs, qs, rs, n, text, id);
      InMore(specs, texts, text, n, id);
    }
  }

  lemma MarksOne(specs: map<string, PoolSpec>, qs: Pools, rs: Pools, n: string, text: string, id: int)
    requires Consistent(specs, qs) && n in qs && n in rs && rs[n] == MarkAddress(qs[n], specs[n].net, text)
    ensures id in rs[n].used <==> id in qs[n].used || IsAddressOf(specs, n, text, id)
  {}

  lemma InMore(specs: map<string, PoolSpec>, texts: seq<string>, text: string, n: string, id: int)
    ensures (exists t :: t in texts + [text] && IsAddressOf(specs, n, t, id)) <==>
              (exists t :: t in texts && IsAddressOf(specs, n, t, id)) || IsAddressOf(specs, n, text, id)
  {
    assert forall t :: t in texts + [text] <==> t in texts || t == text;
  }

  /** The numbers that texts are the addresses of, and the numbers that are in use. */
  ghost function TextClaims(specs: map<string, PoolSpec>, texts: seq<string>): iset<(string, int)>
  {
    iset k: (string, int) | exists t :: t in texts && IsAddressOf(specs, k.0, t, k.1)
  }

  ghost function Marks(ps: Pools): iset<(string, int)>
  {
    iset k: (string, int) | k.0 in ps && k.1 in ps[k.0].used
  }

  lemma MarksGrow(ps: Pools, qs: Pools)
    requires Grown(ps, qs)
    ensures Marks(ps) <= Marks(qs)
  {}

  /** Pools as their configuration and the calls on them make them. */
  ghost predicate Consistent(specs: map<string, PoolSpec>, ps: Pools)
  {
    AllValid(specs) && AllReady(ps) && Grown(FreshPools(specs), ps)
  }

  lemma OneChanges(specs: map<string, PoolSpec>, ps: Pools, pool: string, p: Pool)
    requires Consistent(specs, ps) && pool in ps && Short(p) && p.start == ps[pool].start && p.end == ps[pool].end
    ensures Consistent(specs, ps[pool := p]) && (ps[pool].used <= p.used ==> Grown(ps, ps[pool := p]))
  {}

  lemma WithAddressStays(specs: map<string, PoolSpec>, ps: Pools, pool: string, text: string)
    requires Consistent(specs, ps) && pool in ps
    ensures var qs := ps[pool := MarkAddress(ps[pool], specs[pool].net, text)]; Consistent(specs, qs) && Grown(ps, qs)
  {
    OneChanges(specs, ps, pool, MarkAddress(ps[pool], specs[pool].net, text));
  }

  lemma SameKeys(ps: Pools, pool: string, p: Pool)
    requires pool in ps
    ensures ps[pool := p].Keys == ps.Keys
  {}

  lemma SameAgain(ps: Pools, pool: string)
    requires pool in ps
    ensures ps[pool := ps[pool]] == ps
  {}

  /** The pools are as new, except for those that are left to do. */
  ghost predicate FreshBut(specs: map<string, PoolSpec>, ps: Pools, todo: set<string>)
    requires AllValid(specs)
  {
    ps.Keys == specs.Keys && forall n | n in ps && n !in todo :: ps[n] == FreshPool(specs[n])
  }

  lemma FreshButOne(specs: map<string, PoolSpec>, ps: Pools, todo: set<string>, n: string)
    requires AllValid(specs) && FreshBut(specs, ps, todo) && n in specs
    ensures FreshBut(specs, ps[n := FreshPool(specs[n])], todo - {n})
  {}

  lemma FreshButNone(specs: map<string, PoolSpec>, ps: Pools)
    requires AllValid(specs) && FreshBut(specs, ps, {})
    ensures ps == FreshPools(specs)
  {}

  /** An allocator has a value. */
  ghost predicate Holds(a: PoolAllocator, p: Pool)
    reads a
  {
    a.Valid() && a.Value() == p
  }

  class PoolManager {
    const specs: map<string, PoolSpec>
    const allocators: map<string, PoolAllocator>
    ghost const poolOf: map<PoolAllocator, string>

    /** The values of the allocators. */
    ghost var value: Pools

    ghost predicate Valid()
      reads this, allocators.Values
    {
      && Consistent(specs, value) && allocators.Keys == value.Keys && NetsFit()
      && forall n | n in allocators :: Holds(allocators[n], value[n])
    }

    /** Each allocator is for one pool, and for the network that is configured. */
    ghost predicate NetsFit()
    {
      && allocators.Keys == specs.Keys
      && forall n | n in allocators ::
           allocators[n].net == specs[n].net && allocators[n] in poolOf && poolOf[allocators[n]] == n
    }

    constructor (specs: map<string, PoolSpec>)
      requires AllValid(specs)
      ensures Valid() && this.specs == specs && value == FreshPools(specs) && fresh(allocators.Values)
    {
      this.specs := specs;
      var m := MakeAllocators(specs);
      allocators, value := m, FreshPools(specs);
      poolOf := map n | n in m :: m[n] := n;
    }

    /** All allocators but one have the values that they are known to have. */
    ghost predicate ValidBut(pool: string)
      reads this, allocators.Values
    {
      && allocators.Keys == value.Keys
      && forall n | n in allocators && n != pool :: Holds(allocators[n], value[n])
    }

    /** The value of an allocator that was called is known again. */
    ghost method Note(pool: string, p: Pool)
      requires pool in allocators && ValidBut(pool) && NetsFit() && Holds(allocators[pool], p)
      requires Consistent(specs, value[pool := p])
      modifies this`value
      ensures Valid() && value == old(value)[pool := p]
    {
      SameKeys(value, pool, p);
      value := value[pool := p];
    }

    /** An allocator of its own for each pool. */
    static method MakeAllocators(specs: map<string, PoolSpec>) returns (m: map<string, PoolAllocator>)
      requires AllValid(specs)
      ensures m.Keys == specs.Keys
      ensures forall n | n in m :: fresh(m[n]) && m[n].Valid() && m[n].Value() == FreshPool(specs[n])
      ensures forall n | n in m :: m[n].net == specs[n].net
      ensures forall n, o | n in m && o in m && m[n] == m[o] :: n == o
    {
      m := map[];
      var todo := specs.Keys;
      while todo != {}
        invariant todo <= specs.Keys && m.Keys == specs.Keys - todo
        invariant forall n | n in m :: fresh(m[n]) && m[n].Valid() && m[n].Value() == FreshPool(specs[n])
        invariant forall n | n in m :: m[n].net == specs[n].net
        invariant forall n, o | n in m && o in m && m[n] == m[o] :: n == o
      {
        var n :| n in todo;
        var a := new PoolAllocator(specs[n].start, specs[n].end, specs[n].net);
        m := m[n := a];
        todo := todo - {n};
      }
    }

    /** The allocators as they are after a restart: as new. */
    method ResetAll()
      requires Valid()
      modifies this`value, allocators.Values
      ensures Valid() && value == FreshPools(specs)
    {
      var todo := allocators.Keys;
      while todo != {}
        invariant todo <= allocators.Keys && Valid() && FreshBut(specs, value, todo)
      {
        var n :| n in todo;
        FreshButOne(specs, value, todo, n);
        ResetOne(n);
        todo := todo - {n};
      }
      FreshButNone(specs, value);
    }

    method ResetOne(pool: string)
      requires Valid() && pool in allocators
      modifies this`value, allocators.Values
      ensures Valid() && value == old(value)[pool := FreshPool(specs[pool])]
    {
      var a := allocators[pool];
      a.Reset();
      OneChanges(specs, value, pool, a.Value());
      Note(pool, a.Value());
    }

    /** Marks a number that an interface has; an error if the pool is missing or the number is out of its range. */
    method SetAddress(pool: string, id: u32) returns (address: string, ok: bool)
      requires Valid()
      modifies this`value, allocators.Values
      ensures Valid() && ok == Settable(old(value), pool, id)
      ensures value == if ok then MarkIn(old(value), pool, id) else old(value)
      ensures ok ==> address == AddressIn(specs, pool, id)
    {
      if pool !in allocators { return "", false; }
      var a := allocators[pool];
      address, ok := a.SetAddress(id);
      OneChanges(specs, value, pool, a.Value());
      SameAgain(value, pool);
      Note(pool, a.Value());
    }

    /** Draws a number; an error if the pool is missing or has none left. */
    method AllocateAddress(pool: string) returns (address: string, id: u32, ok: bool)
      requires Valid()
      modifies this`value, allocators.Values
      ensures Valid()
      ensures ok <==> CanDraw(old(value), pool)
      ensures ok ==> DrawnFrom(old(value), value, pool, id) && address == AddressIn(specs, pool, id)
      ensures !ok ==> value == old(value)
    {
      if pool !in allocators { return "", 0, false; }
      var a := allocators[pool];
      DrawIsFresh(a.Value());
      address, id, ok := a.AllocateIPAddress();
      OneChanges(specs, value, pool, a.Value());
      SameAgain(value, pool);
      Note(pool, a.Value());
    }

    /** The pool with an address marked, if it lies in the pool's network. */
    ghost function WithAddress(pool: string, p: Pool, text: string): Pool
      requires pool in specs && specs[pool].net.bits <= 32 && p.Valid()
    {
      MarkAddress(p, specs[pool].net, text)
    }

    /** The address is marked in the pools qs, except for those that are left to do. */
    ghost predicate MarkedBut(ps: Pools, qs: Pools, text: string, todo: set<string>)
    {
      && ps.Keys == qs.Keys == specs.Keys && (forall n | n in specs :: specs[n].net.bits <= 32)
      && (forall n | n in ps :: ps[n].Valid())
      && forall n | n in ps :: qs[n] == if n in todo then ps[n] else WithAddress(n, ps[n], text)
    }

    lemma MarkedButOne(ps: Pools, qs: Pools, text: string, todo: set<string>, n: string)
      requires MarkedBut(ps, qs, text, todo) && n in todo && n in ps
      ensures MarkedBut(ps, qs[n := WithAddress(n, qs[n], text)], text, todo - {n})
    {}

    /** Marks an address in every pool that it belongs to. */
    method SetAddressInPools(text: string)
      requires Valid()
      modifies this`value, allocators.Values
      ensures Valid() && Grown(old(value), value)
      ensures forall n | n in allocators :: value[n] == WithAddress(n, old(value)[n], text)
    {
      var todo := allocators.Keys;
      while todo != {}
        invariant todo <= allocators.Keys && Valid() && Grown(old(value), value)
        invariant MarkedBut(old(value), value, text, todo)
      {
        var n :| n in todo;
        ghost var ps := value;
        MarkedButOne(old(value), value, text, todo, n);
        SetAddressIfInPool(n, text);
        GrownTransitive(old(value), ps, value);
        todo := todo - {n};
      }
    }

    method SetAddressIfInPool(pool: string, text: string)
      requires Valid()
      modifies this`value, allocators.Values
      ensures Valid() && Grown(old(value), value)
      ensures value == if pool !in allocators then old(value)
                       else old(value)[pool := WithAddress(pool, old(value)[pool], text)]
    {
      if pool !in allocators { return; }
      var a := allocators[pool];
      ghost var p := WithAddress(pool, value[pool], text);
      WithAddressStays(specs, value, pool, text);
      a.SetIPAddrIfInsidePool(text);
      Note(pool, p);
    }
  }
}
