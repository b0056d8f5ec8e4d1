/** Tunnel endpoint addresses, one a node: AllocateVxlanAddress of networknodeoverlay.go. */
module Tunnels {
  import opened Unsigned
  import opened Addresses
  import opened Ipam

  /** Addresses that differ without their prefix lengths. */
  ghost predicate DistinctAddresses(m: map<string, string>)
  {
    forall a, b | a in m && b in m && StripSlash(m[a]) == StripSlash(m[b]) :: a == b
  }

  /** Later addresses beside the earlier ones. */
  ghost predicate Extends(m: map<string, string>, m': map<string, string>)
  {
    forall n | n in m :: n in m' && m'[n] == m[n]
  }

  /** What an address book has: the addresses of nodes, and how many more it can give. */
  datatype Account = Account(addr: map<string, string>, spare: nat)

  /** It has, or can give, addresses for the nodes. */
  ghost predicate Enough(x: Account, nodes: set<string>) { Count(nodes - x.addr.Keys) <= x.spare }

  /** How many there are, one by one. */
  ghost function Count(s: set<string>): nat
    decreases |s|
  {
    if s == {} then 0 else
      var n :| n in s;
      1 + Count(s - {n})
  }

  lemma {:induction false} CountIs(s: set<string>)
    ensures Count(s) == |s|
    decreases |s|
  {
    if s != {} {
      var n :| n in s && Count(s) == 1 + Count(s - {n});
      CountIs(s - {n});
    }
  }

  /** Some of the nodes have got addresses, at the cost of one each. */
  ghost predicate Spent(x: Account, y: Account, nodes: set<string>)
  {
    && Extends(x.addr, y.addr) && y.addr.Keys <= x.addr.Keys + nodes
    && y.spare + Count(y.addr.Keys - x.addr.Keys) == x.spare
  }

  /** Whether it has enough for the nodes does not depend on how many of them have got theirs already. */
  lemma EnoughStays(x: Account, y: Account, nodes: set<string>)
    requires Spent(x, y, nodes)
    ensures Enough(x, nodes) <==> Enough(y, nodes)
  {
    KeysStay(x.addr, y.addr);
    Lacking(nodes, x.addr.Keys, y.addr.Keys);
  }

  lemma KeysStay(m: map<string, string>, m': map<string, string>)
    requires Extends(m, m')
    ensures m.Keys <= m'.Keys
  {}

  lemma Lacking(nodes: set<string>, a: set<string>, b: set<string>)
    requires a <= b <= a + nodes
    ensures Count(nodes - b) + Count(b - a) == Count(nodes - a)
  {
    CountIs(nodes - a);
    CountIs(nodes - b);
    CountIs(b - a);
    assert nodes - a == (nodes - b) + (b - a);
  }

  lemma EnoughFor(x: Account, nodes: set<string>, more: set<string>)
    requires nodes <= more
    ensures Enough(x, more) ==> Enough(x, nodes)
  {
    SmallerSet(nodes - x.addr.Keys, more - x.addr.Keys);
  }

  lemma SmallerSet(a: set<string>, b: set<string>)
    requires a <= b
    ensures Count(a) <= Count(b)
  {
    CountIs(a);
    CountIs(b);
    assert b == a + (b - a);
  }

  /** Where the nodes have got addresses, there was enough; with some of them having theirs, the others matter. */
  lemma EnoughWas(x: Account, y: Account, nodes: set<string>)
    requires Spent(x, y, nodes) && nodes <= y.addr.Keys
    ensures Enough(x, nodes)
  {
    assert nodes - y.addr.Keys == {};
    EnoughStays(x, y, nodes);
  }

  lemma EnoughTogether(x: Account, have: set<string>, more: set<string>)
    requires have <= x.addr.Keys
    ensures Enough(x, have + more) <==> Enough(x, more)
  {
    assert have + more - x.addr.Keys == more - x.addr.Keys;
  }

  lemma SpentFor(x: Account, y: Account, nodes: set<string>, more: set<string>)
    requires Spent(x, y, nodes) && nodes <= more
    ensures Spent(x, y, more)
  {}

  lemma SpentTwice(x: Account, y: Account, z: Account, nodes: set<string>, more: set<string>)
    requires Spent(x, y, nodes) && Spent(y, z, more)
    ensures Spent(x, z, nodes + more)
  {
    KeysStay(x.addr, y.addr);
    KeysStay(y.addr, z.addr);
    Lacking(z.addr.Keys, x.addr.Keys, y.addr.Keys);
  }

  lemma SpentNothing(x: Account, nodes: set<string>)
    ensures Spent(x, x, nodes)
  {
    assert x.addr.Keys - x.addr.Keys == {};
  }

  lemma SpentOne(x: Account, y: Account, node: string, address: string)
    requires y.addr == x.addr[node := address] && node !in x.addr && y.spare == x.spare - 1
    ensures Spent(x, y, {node})
  {
    assert y.addr.Keys - x.addr.Keys == {node};
    CountIs({node});
  }

  lemma EnoughForOne(x: Account, node: string)
    ensures Enough(x, {node}) <==> node in x.addr || x.spare > 0
  {
    assert {node} - x.addr.Keys == if node in x.addr then {} else {node};
    CountIs({node});
  }

  /** Two nodes get their addresses one after the other. */
  lemma EnoughForTwo(x: Account, y: Account, z: Account, a: string, b: string, ok: bool)
    requires Spent(x, y, {a}) && (a in y.addr <==> Enough(x, {a}))
    requires if a in y.addr then Spent(y, z, {b}) && (ok <==> Enough(y, {b})) else z == y && !ok
    ensures Spent(x, z, {a, b}) && (ok <==> Enough(x, {a, b}))
  {
    assert {a} + {b} == {a, b};
    if a in y.addr {
      SpentTwice(x, y, z, {a}, {b});
      SpentFor(x, y, {a}, {a, b});
      EnoughStays(x, y, {a, b});
      EnoughTogether(y, {a}, {b});
    } else {
      SpentFor(x, y, {a}, {a, b});
      EnoughFor(x, {a}, {a, b});
    }
  }

  /** Some of the nodes get their addresses after others. */
  lemma SpentPart(x: Account, y: Account, z: Account, part: set<string>, nodes: set<string>, ok: bool)
    requires Spent(x, y, nodes) && Spent(y, z, part) && part <= nodes && (ok <==> Enough(y, part))
    ensures Spent(x, z, nodes) && (!ok ==> !Enough(x, nodes))
  {
    SpentTwice(x, y, z, nodes, part);
    Absorbed(nodes, part);
    EnoughFor(y, part, nodes);
    EnoughStays(x, y, nodes);
  }

  /** The same nodes are asked for once more. */
  lemma SpentAgain(x: Account, y: Account, z: Account, nodes: set<string>, ok: bool)
    requires Spent(x, y, nodes) && Spent(y, z, nodes) && (ok <==> Enough(y, nodes))
    ensures Spent(x, z, nodes) && (ok <==> Enough(x, nodes))
  {
    SpentPart(x, y, z, nodes, nodes, ok);
    EnoughStays(x, y, nodes);
  }

  lemma Absorbed(a: set<string>, b: set<string>)
    requires b <= a
    ensures a + b == a
  {}

  /** Every address was made from an id of its own, which is taken. */
  ghost predicate MadeFrom(net: Network, used: set<int>, addresses: map<string, string>, ids: map<string, int>)
  {
    && net.bits <= 32 && ids.Keys == addresses.Keys
    && (forall n | n in ids :: ids[n] in used && 0 <= ids[n] < U32)
    && (forall n | n in ids :: Fits(net, ids[n]) && addresses[n] == FormatIPAddress(net, ids[n]))
    && (forall a, b | a in ids && b in ids && ids[a] == ids[b] :: a == b)
  }

  lemma MadeFromGrows(net: Network, used: set<int>, addresses: map<string, string>, ids: map<string, int>, node: string,
                      id: u32)
    requires MadeFrom(net, used, addresses, ids) && node !in addresses && id !in used && Fits(net, id)
    ensures MadeFrom(net, used + {id}, addresses[node := FormatIPAddress(net, id)], ids[node := id])
  {
    var ids' := ids[node := id];
    assert forall n | n in ids' && n != node :: n in ids && ids'[n] == ids[n] && ids[n] != id;
  }

  class AddressBook {
    /** Whether a pool was named; without one, the addresses come from the specifications of the nodes. */
    const usePool: bool
    const fixed: map<string, string>
    const pool: PoolAllocator

    /** The addresses drawn from the pool so far, and the ids that they were made from. */
    var addresses: map<string, string>
    ghost var ids: map<string, int>

    ghost predicate Valid()
      reads this, pool
    {
      && pool.Valid() && Ready(pool.Value())
      && pool.net.Valid() && (forall id: u32 | pool.start <= id <= pool.end :: Fits(pool.net, id))
      && MadeFrom(pool.net, pool.used, addresses, ids)
    }

    constructor (usePool: bool, fixed: map<string, string>, pool: PoolAllocator)
      requires pool.Valid() && Ready(pool.Value()) && pool.net.Valid()
      requires forall id: u32 | pool.start <= id <= pool.end :: Fits(pool.net, id)
      ensures Valid() && this.usePool == usePool && this.fixed == fixed && this.pool == pool && addresses == map[]
    {
      this.usePool, this.fixed, this.pool, addresses, ids := usePool, fixed, pool, map[], map[];
    }

    /** The address of each node that has one. */
    function Assigned(): map<string, string>
      reads this
    {
      if usePool then addresses else fixed
    }

    ghost function Balance(): Account
      requires Valid()
      reads this, pool
    {
      Account(Assigned(), if usePool then Spare(pool.Value()) else 0)
    }

    /** The address of a node: a fixed one, the one drawn before, or a new one from the pool. */
    method AllocateVxlanAddress(node: string) returns (address: string, ok: bool)
      requires Valid()
      modifies this, pool
      ensures Valid() && (node in old(Assigned()) ==> address == old(Assigned())[node])
      ensures Assigned() == if ok then old(Assigned())[node := address] else old(Assigned())
      ensures ok <==> node in Assigned()
      ensures Spent(old(Balance()), Balance(), {node}) && (ok <==> Enough(old(Balance()), {node}))
    {
      SpentNothing(Balance(), {node});
      EnoughForOne(Balance(), node);
      if !usePool {
        if node !in fixed { return "", false; }
        assert fixed == fixed[node := fixed[node]];
        return fixed[node], true;
      }
      if node in addresses {
        assert addresses == addresses[node := addresses[node]];
        return addresses[node], true;
      }
      ghost var x := Balance();
      address, ok := Draw(node);
      if ok { SpentOne(x, Balance(), node, address); }
    }

    /** Draws an address for a node that has none. */
    method Draw(node: string) returns (address: string, ok: bool)
      requires Valid() && usePool && node !in addresses
      modifies this, pool
      ensures Valid() && (ok <==> old(Spare(pool.Value())) > 0)
      ensures ok ==> addresses == old(addresses)[node := address] && Spare(pool.Value()) == old(Spare(pool.Value())) - 1
      ensures !ok ==> addresses == old(addresses) && pool.Value() == old(pool.Value())
    {
      DrawIsFresh(pool.Value());
      ghost var used := pool.used;
      var id;
      address, id, ok := pool.AllocateIPAddress();
      if ok {
        MadeFromGrows(pool.net, used, addresses, ids, node, id);
        addresses := addresses[node := address];
        ids := ids[node := id];
      }
    }

    /** Addresses from the pool are distinct. */
    lemma PoolAddressesDistinct()
      requires Valid() && usePool
      ensures DistinctAddresses(Assigned())
    {
      forall a, b | a in addresses && b in addresses && StripSlash(addresses[a]) == StripSlash(addresses[b])
        ensures a == b
      {
        SameStripped(pool.net, ids[a], ids[b]);
      }
    }
  }

  lemma SameStripped(net: Network, a: u32, b: u32)
    requires net.Valid() && Fits(net, a) && Fits(net, b)
    requires StripSlash(FormatIPAddress(net, a)) == StripSlash(FormatIPAddress(net, b))
    ensures a == b
  {
    StripFormatted(net, a);
    StripFormatted(net, b);
    AddressGivesId(net, a);
    AddressGivesId(net, b);
  }
}
