/** The address pool of plugins/controller/idapi/ipam: next-fit allocation of host ids. */
module Ipam {
  import opened Text
  import opened Runs
  import opened Unsigned
  import opened Addresses

  /** The value of a pool: its range, the id to try next and the ids in use. */
  datatype Pool = Pool(start: u32, end: u32, next: u32, used: set<int>) {
    /** The number of ids in the range, computed with uint32 arithmetic. */
    function Total(): u32 { Wrap(end - start + 1) }

    ghost predicate Valid() { start >= 1 && forall k | k in used :: 0 <= k < U32 }

    /** Ids are only ever marked inside the range. */
    ghost predicate InRange() { used <= Interval(start, end) }

    /** The count of ids in use is the size of the range, which is how the source tells that it is full. */
    predicate CountFull() { Wrap(|used|) == Total() }

    /** The id after a given one, back at the start behind the end of the range. */
    function NextAfter(id: u32): u32
    {
      var n := Wrap(id + 1);
      if n > end then start else n
    }

    /** What allocation returns: the first free id from next on, then from the start on; 0 if there is none. */
    ghost function NextFit(): nat
      requires Valid()
    {
      var id := if next == 0 then 0 else LeastClear(used, next, end);
      if id != 0 then id else if next == 0 then 0 else LeastClear(used, start, next - 1)
    }

    /** The id that a plain search of the range finds. */
    ghost function LeastFree(): nat
      requires Valid()
    {
      LeastClear(used, start, end)
    }

    /** Everything below next is in use. */
    ghost predicate Packed()
    {
      || (start <= next && (next <= end || next == start) && forall k | start <= k < next :: k in used)
      || (next == 0 && end == U32 - 1 && forall k | start <= k <= end :: k in used)
    }

    /** The counters of the allocation loops do not wrap before a free id is met. */
    ghost predicate ScanEnds()
      requires Valid()
    {
      CountFull() || (next >= 1 && (end < U32 - 1 || LeastClear(used, next, end) != 0))
    }
  }

  /** Calls on a pool: mark an id, allocate one, or mark the id of an address inside the network. */
  datatype Op = Mark(id: u32) | Allocate | Address(id: u32)

  datatype Outcome = Marked | Rejected | Allocated(id: u32) | Failed

  ghost function Step(p: Pool, op: Op): (Pool, Outcome)
    requires p.Valid()
  {
    match op
    case Mark(id) =>
      if id < p.start || id > p.end then (p, Rejected) else (p.(used := p.used + {id}), Marked)
    case Allocate =>
      var id := p.NextFit();
      if p.CountFull() || id == 0 then (p, Failed)
      else (p.(used := p.used + {id}, next := p.NextAfter(id)), Allocated(id))
    case Address(id) => (p.(used := p.used + {id}), Marked)
  }

  /** The address of an id: the network's bits or the id's. */
  function AddressOf(net: Network, id: u32): u32
  {
    OrOfU32(net.ip, id);
    Or(net.ip, id)
  }

  lemma OrOfU32(x: u32, y: u32)
    ensures Or(x, y) < U32
  {
    Pow2Of32();
    OrBound(x, y, 32);
  }

  /** The text of an id's address with its prefix length. */
  function FormatIPAddress(net: Network, id: u32): string
  {
    Dotted(AddressOf(net, id)) + "/" + Decimal(net.bits)
  }

  lemma {:induction false} LowOfU32(x: nat, h: nat)
    ensures Low(x, h) <= x
    decreases h
  {
    if h > 0 { LowOfU32(x / 2, h - 1); }
  }

  /** The id of an address: its bits outside the mask. */
  function HostId(net: Network, x: u32): u32
    requires net.bits <= 32
  {
    LowOfU32(x, net.HostBits());
    Low(x, net.HostBits())
  }

  class PoolAllocator {
    const start: u32
    const end: u32
    const total: u32
    const net: Network
    var next: u32
    var used: set<int>

    ghost predicate Valid()
      reads this
    {
      Value().Valid() && total == Value().Total() && net.bits <= 32
    }

    function Value(): Pool
      reads this
    {
      Pool(start, end, next, used)
    }

    constructor (startRange: u32, endRange: u32, net: Network)
      requires net.bits <= 32
      ensures Valid() && this.net == net && used == {} && next == start
      ensures start == if startRange == 0 then 1 else startRange
      ensures end == if endRange == 0 then DefaultEnd(net.bits) else endRange
    {
      var s, e := if startRange == 0 then 1 else startRange, if endRange == 0 then DefaultEnd(net.bits) else endRange;
      start, next, end := s, s, e;
      total := Wrap(e - s + 1);
      this.net := net;
      used := {};
    }

    /** As new: nothing is in use. */
    method Reset()
      requires Valid()
      modifies this
      ensures Valid() && Value() == Pool(start, end, start, {})
    {
      next, used := start, {};
    }

    method SetAddress(id: u32) returns (address: string, ok: bool)
      requires Valid()
      modifies this
      ensures Valid() && (Value(), if ok then Marked else Rejected) == Step(old(Value()), Mark(id))
      ensures ok ==> address == FormatIPAddress(net, id)
    {
      if id < start || id > end { return "", false; }
      used := used + {id};
      return FormatIPAddress(net, id), true;
    }

    /** Marks an id and moves on to the one after it. */
    method Take(id: u32) returns (address: string)
      requires Valid()
      modifies this
      ensures Valid() && Value() == old(Value()).(used := old(used) + {id}, next := old(Value()).NextAfter(id))
      ensures address == FormatIPAddress(net, id)
    {
      used := used + {id};
      next := Wrap(id + 1);
      if next > end { next := start; }
      return FormatIPAddress(net, id);
    }

    method AllocateIPAddress() returns (address: string, id: u32, ok: bool)
      requires Valid() && Value().ScanEnds()
      modifies this
      ensures Valid() && (Value(), if ok then Allocated(id) else Failed) == Step(old(Value()), Allocate)
      ensures ok ==> address == FormatIPAddress(net, id)
    {
      if Wrap(|used|) == total { return "", 0, false; }
      id := Scan(next, end);
      if id == 0 { id := Scan(start, next - 1); }
      assert id == Value().NextFit();
      if id == 0 { return "", 0, false; }
      address := Take(id);
      ok := true;
    }

    /** Marks the id of a bare address inside the network; there is no check against the range. */
    method SetIPAddrIfInsidePool(text: string)
      requires Valid()
      modifies this
      ensures Valid() && Value() == MarkAddress(old(Value()), net, text)
    {
      var id := InsideId(net, text);
      MarkFound(id);
    }

    method MarkFound(id: Option<u32>)
      requires Valid()
      modifies this
      ensures Valid() && Value() == WithId(old(Value()), id)
    {
      if id.Some? { used := used + {id.value}; }
    }

    /** Ids in use, ids in the range, and what the status line calls free. */
    method GetAllocatedAddressesStatus() returns (set_: nat, all: u32, free: u32)
      requires Valid()
      ensures set_ == |used| && all == Value().Total()
      ensures Value().InRange() && start <= end ==> free == |Interval(start, end) - used| && free + set_ == all
    {
      set_, all, free := |used|, total, Wrap(total - Wrap(|used|));
      if Value().InRange() && start <= end {
        FreeCount(Value());
        SmallWrap(|used|);
        SmallWrap(total - |used|);
      }
    }

    /** The allocation loops: the first free id of lo..hi, or 0; the counter wraps behind 2^32 - 1. */
    method Scan(lo: u32, hi: u32) returns (id: u32)
      requires lo >= 1 && (hi < U32 - 1 || LeastClear(used, lo, hi) != 0)
      ensures id == LeastClear(used, lo, hi)
    {
      id := lo;
      while id <= hi
        invariant lo <= id && forall k | lo <= k < id :: k in used
        decreases U32 - id
      {
        if id !in used {
          LeastClearIs(used, lo, hi, id);
          return;
        }
        id := Wrap(id + 1);
      }
      LeastClearIs(used, lo, hi, 0);
      return 0;
    }
  }

  /** What a text does to a pool: a bare address inside the network marks its id, and others nothing. */
  ghost function MarkAddress(p: Pool, net: Network, text: string): Pool
    requires p.Valid() && net.bits <= 32
  {
    WithId(p, InsideId(net, text))
  }

  ghost function WithId(p: Pool, id: Option<u32>): Pool
    requires p.Valid()
  {
    match id
    case None => p
    case Some(id) => Step(p, Address(id)).0
  }

  /** The id of a bare address inside a network. */
  function InsideId(net: Network, text: string): Option<u32>
    requires net.bits <= 32
  {
    match ReadDotted(text)
    case None => None
    case Some(x) => if net.Contains(x) then Some(HostId(net, x)) else None
  }

  lemma FreeCount(p: Pool)
    requires p.Valid() && p.InRange() && p.start <= p.end
    ensures |p.used| <= p.Total() && |Interval(p.start, p.end) - p.used| == p.Total() - |p.used|
  {
    IntervalSize(p.start, p.end);
    FullSubset(p.used, p.start, p.end);
  }

  /** In a packed pool the search from next on finds what a search of the whole range finds. */
  lemma NextFitIsLeastFree(p: Pool)
    requires p.Valid() && p.Packed()
    ensures p.NextFit() == p.LeastFree()
  {
    if p.next != 0 { LeastClearIs(p.used, p.start, p.end, LeastClear(p.used, p.next, p.end)); }
  }

  /** Every call keeps a pool packed. */
  lemma PackedStep(p: Pool, op: Op)
    requires p.Valid() && p.Packed()
    ensures Step(p, op).0.Valid() && Step(p, op).0.Packed()
  {
    if op.Allocate? { PackedAllocate(p); }
  }

  lemma PackedAllocate(p: Pool)
    requires p.Valid() && p.Packed()
    ensures Step(p, Allocate).0.Valid() && Step(p, Allocate).0.Packed()
  {
    NextFitIsLeastFree(p);
    var id := p.LeastFree();
    if !p.CountFull() && id != 0 {
      var used := p.used + {id};
      assert forall k | p.start <= k <= id :: k in used;
      if id == U32 - 1 {
        assert p.NextAfter(id) == 0;
      } else {
        assert p.NextAfter(id) == if id == p.end then p.start else id + 1;
      }
    }
  }

  /** Marking an id by its number takes it exactly if it is in the range, and takes no other. */
  lemma MarksInRange(p: Pool, id: u32)
    requires p.Valid()
    ensures var (q, out) := Step(p, Mark(id));
            && (out == Marked <==> p.start <= id <= p.end) && (out == Marked || out == Rejected)
            && q.used == p.used + (if out == Marked then {id} else {}) && q.(used := p.used) == p
  {}

  /** A call that marks no id outside the range. */
  ghost predicate Inside(p: Pool, op: Op) { op.Address? ==> p.start <= op.id <= p.end }

  lemma InRangeStep(p: Pool, op: Op)
    requires p.Valid() && p.Packed()
    ensures Step(p, op).0.InRange() <==> p.InRange() && Inside(p, op)
  {
    NextFitIsLeastFree(p);
    if op.Address? && Step(p, op).0.InRange() { assert op.id in Step(p, op).0.used; }
  }

  /** Where ids were only marked in range, the count tells whether a free id is left. */
  lemma CountTellsFull(p: Pool)
    requires p.Valid() && p.InRange() && p.start <= p.end
    ensures p.CountFull() <==> p.LeastFree() == 0
  {
    CountIsSize(p);
    FullSubset(p.used, p.start, p.end);
    CoversInterval(p.used, p.start, p.end);
  }

  lemma CountIsSize(p: Pool)
    requires p.Valid() && p.InRange() && p.start <= p.end
    ensures p.CountFull() <==> |p.used| == |Interval(p.start, p.end)|
  {
    IntervalSize(p.start, p.end);
    FullSubset(p.used, p.start, p.end);
    SmallWrap(|p.used|);
    SmallWrap(p.end - p.start + 1);
  }

  /** The pool after a run of calls. */
  ghost function After(p: Pool, ops: seq<Op>): (q: Pool)
    requires p.Valid() && p.Packed()
    ensures q.Valid() && q.Packed() && q.start == p.start && q.end == p.end
    decreases ops
  {
    if ops == [] then p else
      PackedStep(p, ops[0]);
      After(Step(p, ops[0]).0, ops[1..])
  }

  /** A pool keeps to its range exactly if no address with an id outside it was marked. */
  lemma {:induction false} InRangeExactlyIf(p: Pool, ops: seq<Op>)
    requires p.Valid() && p.Packed()
    ensures After(p, ops).InRange() <==> p.InRange() && forall op | op in ops :: Inside(p, op)
    decreases ops
  {
    if ops != [] {
      PackedStep(p, ops[0]);
      InRangeStep(p, ops[0]);
      var q := Step(p, ops[0]).0;
      InRangeExactlyIf(q, ops[1..]);
      assert forall op :: Inside(q, op) <==> Inside(p, op);
      assert forall op :: op in ops <==> op == ops[0] || op in ops[1..];
    }
  }

  /** A pool as it is created. */
  ghost predicate New(p: Pool) { p.Valid() && p.used == {} && p.next == p.start }

  /**
   * After every run of calls on a new pool that marks no id outside the range, allocation returns the least free
   * id of the range and fails exactly when there is none; its loops end, and it never reports an internal error.
   */
  lemma AllocationIsLeastFree(p: Pool, ops: seq<Op>)
    requires New(p) && forall op | op in ops :: Inside(p, op)
    ensures var q := After(p, ops);
            && q.start <= q.end ==> q.ScanEnds() && (q.NextFit() == 0 ==> q.CountFull())
    ensures var q := After(p, ops); var out := Step(q, Allocate).1;
            if q.LeastFree() == 0 then out == Failed else out == Allocated(q.LeastFree())
  {
    var q := After(p, ops);
    InRangeExactlyIf(p, ops);
    NextFitIsLeastFree(q);
    if q.start <= q.end { CountTellsFull(q); }
  }

  /** Allocation fails although an id is free. */
  ghost predicate FailsFalsely(p: Pool)
    requires p.Valid()
  {
    Step(p, Allocate).1 == Failed && p.LeastFree() != 0
  }

  /**
   * In every pool that a run of calls leads to, allocation fails although an id is free exactly if the count is that
   * of a full range and an address with an id outside the range was marked.
   */
  lemma FailsFalselyExactlyIf(p: Pool, ops: seq<Op>)
    requires New(p) && p.start <= p.end
    ensures FailsFalsely(After(p, ops)) <==> After(p, ops).CountFull() && exists op :: op in ops && !Inside(p, op)
  {
    var q := After(p, ops);
    InRangeExactlyIf(p, ops);
    NextFitIsLeastFree(q);
    if q.InRange() { CountTellsFull(q); }
    if !q.InRange() && q.LeastFree() == 0 { OutsiderCounts(q); }
  }

  /** An input on which it does: ids 1 and 2 of 10.0.0.0/24, the address 10.0.0.200 marked, and one id allocated. */
  lemma FailsFalselyAt200()
    ensures var p, net := Pool(1, 2, 1, {}), Network(0x0A00_0000, 24); var ops := [Address(200), Allocate];
            && New(p) && MarkAddress(p, net, StripSlash(FormatIPAddress(net, 200))) == After(p, ops[..1])
            && FailsFalsely(After(p, ops)) && After(p, ops).LeastFree() == 2
  {
    var p, net := Pool(1, 2, 1, {}), Network(0x0A00_0000, 24);
    var ops := [Address(200), Allocate];
    assert ops[..1] == [Address(200)] && ops[1..] == [Allocate] && ops[..1][1..] == [] && ops[1..][1..] == [];
    var q := Step(p, Address(200)).0;
    assert After(p, ops[..1]) == After(q, []) == q;
    FirstOfTwo(q);
    assert After(p, ops) == After(q, [Allocate]) == After(Step(q, Allocate).0, []);
    Network24();
    FormattedMarksItsId(p, net, 200);
  }

  lemma FirstOfTwo(q: Pool)
    requires q == Pool(1, 2, 1, {200})
    ensures var r := Step(q, Allocate).0; r == Pool(1, 2, 2, {200, 1}) && FailsFalsely(r) && r.LeastFree() == 2
  {
    assert LeastClear(q.used, 1, 2) == 1;
    var r := Step(q, Allocate).0;
    assert r.used == {200, 1};
    assert LeastClear(r.used, 2, 2) == 2;
    assert LeastClear(r.used, 1, 2) == 2;
  }

  lemma Network24()
    ensures Network(0x0A00_0000, 24).Valid() && Fits(Network(0x0A00_0000, 24), 200)
  {
    assert Pow2(8) == 0x100;
    assert Low(0x0A00_0000, 8) == 0;
  }

  /** A pool whose scans end before the counter wraps, whatever ids are marked. */
  ghost predicate Short(p: Pool)
  {
    p.Valid() && p.end < U32 - 1 && p.start <= p.next && (p.next <= p.end || p.next == p.start)
  }

  /** A pool from which an allocation can be made. */
  ghost predicate Ready(p: Pool) { Short(p) || (p.Valid() && p.Packed() && p.InRange()) }

  /** What an allocation does: it gives a free id of the range, or changes nothing. */
  lemma DrawIsFresh(p: Pool)
    requires Ready(p)
    ensures p.ScanEnds() && Ready(Step(p, Allocate).0) && (Short(p) ==> Short(Step(p, Allocate).0))
    ensures var (q, out) := Step(p, Allocate);
            && q.start == p.start && q.end == p.end
            && (out.Allocated? ==> p.start <= out.id <= p.end && out.id !in p.used && q.used == p.used + {out.id})
            && (!out.Allocated? ==> q == p)
  {
    if !Short(p) {
      if p.start <= p.end { CountTellsFull(p); }
      NextFitIsLeastFree(p);
      PackedStep(p, Allocate);
      InRangeStep(p, Allocate);
    }
  }

  /** How many allocations in a row succeed. */
  ghost function Spare(p: Pool): nat
    requires Ready(p)
    decreases |Interval(p.start, p.end) - p.used|
  {
    DrawIsFresh(p);
    var (q, out) := Step(p, Allocate);
    if out.Allocated? then
      OneLess(Interval(p.start, p.end), p.used, out.id);
      1 + Spare(q)
    else 0
  }

  lemma OneLess(all: set<int>, used: set<int>, id: int)
    requires id in all && id !in used
    ensures |all - (used + {id})| == |all - used| - 1
  {
    assert all - (used + {id}) == all - used - {id};
  }

  /** Where ids were only marked in range, as many as there are free ids. */
  lemma {:induction false} SpareIsFree(p: Pool)
    requires Ready(p) && p.Packed() && p.InRange() && p.start <= p.end
    ensures Spare(p) == |Interval(p.start, p.end) - p.used|
    decreases |Interval(p.start, p.end) - p.used|
  {
    DrawIsFresh(p);
    var (q, out) := Step(p, Allocate);
    if out.Allocated? {
      PackedStep(p, Allocate);
      OneLess(Interval(p.start, p.end), p.used, out.id);
      SpareIsFree(q);
    } else {
      CountTellsFull(p);
      NextFitIsLeastFree(p);
      assert Interval(p.start, p.end) - p.used == {};
    }
  }

  /** The count does not tell that a range is full if an id outside it is marked too: the scan finds nothing then. */
  lemma OutsiderCounts(p: Pool)
    requires p.Valid() && p.start <= p.end && !p.InRange() && p.LeastFree() == 0
    ensures !p.CountFull()
  {
    IntervalSize(p.start, p.end);
    ProperSuperset(p.used, p.start, p.end);
    AtMostAll(p.used);
  }

  lemma AtMostAll(s: set<int>)
    requires forall k | k in s :: 0 <= k < U32
    ensures |s| <= U32
  {
    FullSubset(s, 0, U32 - 1);
    IntervalSize(0, U32 - 1);
  }

  /** An id fits the network if it has no bits in the prefix. */
  ghost predicate Fits(net: Network, id: u32)
    requires net.bits <= 32
  {
    id < Pow2(net.HostBits())
  }

  lemma AddressGivesId(net: Network, id: u32)
    requires net.Valid()
    ensures Fits(net, id) ==> AddressOf(net, id) == net.ip + id && net.Contains(AddressOf(net, id))
    ensures HostId(net, AddressOf(net, id)) == id <==> Fits(net, id)
  {
    var h := net.HostBits();
    OrLowBits(net.ip, id, h);
    LowOfSmall(id, h);
    if Fits(net, id) { OrIsSum(net.ip, id, h); }
  }

  /** Addresses of ids that fit lie in the network and determine their ids. */
  lemma AddressesDistinct(net: Network, id: u32, id': u32)
    requires net.Valid() && Fits(net, id) && Fits(net, id')
    ensures net.Contains(AddressOf(net, id))
    ensures FormatIPAddress(net, id) == FormatIPAddress(net, id') ==> id == id'
  {
    if FormatIPAddress(net, id) == FormatIPAddress(net, id') {
      StripFormatted(net, id);
      StripFormatted(net, id');
    }
    AddressGivesId(net, id);
    AddressGivesId(net, id');
  }

  /** The text of an address without its prefix length reads back as the address. */
  lemma StripFormatted(net: Network, id: u32)
    ensures StripSlash(FormatIPAddress(net, id)) == Dotted(AddressOf(net, id))
    ensures ReadDotted(StripSlash(FormatIPAddress(net, id))) == Some(AddressOf(net, id))
  {
    var x := AddressOf(net, id);
    DottedHasNoSlash(Octets(x));
    StripPrefixLength(Dotted(x), Decimal(net.bits));
    ReadDottedText(x);
  }

  /** Reads an address with its prefix length. */
  function ReadPrefixed(s: string): Option<(u32, nat)>
  {
    var a := StripSlash(s);
    if |a| >= |s| then None else
      match (ReadDotted(a), ReadNumber(s[|a| + 1..]))
      case (Some(x), Some((n, rest))) => if rest == [] then Some((x, n)) else None
      case _ => None
  }

  /** A formatted address reads back whole: the address of the id, and the length of the network's prefix. */
  lemma FormattedReadsBack(net: Network, id: u32)
    ensures ReadPrefixed(FormatIPAddress(net, id)) == Some((AddressOf(net, id), net.bits))
  {
    var text, a := FormatIPAddress(net, id), Dotted(AddressOf(net, id));
    StripFormatted(net, id);
    assert text[|a| + 1..] == Decimal(net.bits);
    assert Decimal(net.bits) + "" == Decimal(net.bits);
    ReadNumberText(net.bits, "");
  }

  /** A bare address belongs to a pool, as that of an id, exactly if it is the network's address with that id in it. */
  lemma InsideExactlyIf(net: Network, x: u32, id: u32)
    requires net.Valid()
    ensures InsideId(net, Dotted(x)) == Some(id) <==> Fits(net, id) && x == net.ip + id
  {
    ReadDottedText(x);
    PartsOfAddress(net, x, id);
  }

  lemma PartsOfAddress(net: Network, x: u32, id: u32)
    requires net.Valid()
    ensures net.Contains(x) && HostId(net, x) == id <==> Fits(net, id) && x == net.ip + id
  {
    LowOfSmall(x, net.HostBits());
    if Fits(net, id) { AddressGivesId(net, id); }
  }

  /**
   * Passing a formatted address without its prefix length back to the pool marks exactly its id if, and only if, the id
   * fits.
   */
  lemma FormattedMarksItsId(p: Pool, net: Network, id: u32)
    requires p.Valid() && net.Valid() && id !in p.used
    ensures MarkAddress(p, net, StripSlash(FormatIPAddress(net, id))) == p.(used := p.used + {id}) <==> Fits(net, id)
  {
    StripFormatted(net, id);
    AddressGivesId(net, id);
    var q := MarkAddress(p, net, StripSlash(FormatIPAddress(net, id)));
    if !Fits(net, id) { assert id !in q.used; }
  }

  /** With its prefix length, a formatted address marks nothing. */
  lemma PrefixedMarksNothing(p: Pool, net: Network, id: u32)
    requires p.Valid() && net.bits <= 32
    ensures MarkAddress(p, net, FormatIPAddress(net, id)) == p
  {
    var text := FormatIPAddress(net, id);
    assert text[|Dotted(AddressOf(net, id))|] == '/';
    assert '/' in text;
    if ReadOctets(text, 4).Some? { DottedOnly(text, 4); }
  }

  /** The end of the range when none is configured: (1 << (32 - bits)) - 2 in uint32 arithmetic. */
  function DefaultEnd(bits: nat): u32
    requires bits <= 32
  {
    Wrap(Wrap(Pow2(32 - bits)) - 2)
  }

  /**
   * The range a pool gets by default fits its network exactly if the prefix is shorter than 32 bits;
   * the subtraction wraps for a single host, whose pool then runs from 1 to 2^32 - 1.
   */
  lemma DefaultRangeFits(net: Network)
    requires net.bits <= 32
    ensures (forall id: u32 | 1 <= id <= DefaultEnd(net.bits) :: Fits(net, id)) <==> net.bits < 32
    ensures net.bits < 32 ==> DefaultEnd(net.bits) == Pow2(32 - net.bits) - 2
    ensures net.bits == 32 ==> DefaultEnd(net.bits) == U32 - 1
  {
    if net.bits < 32 {
      DefaultEndIs(net.bits);
    } else {
      assert DefaultEnd(32) == U32 - 1;
      assert !Fits(net, 1);
    }
  }

  lemma DefaultEndIs(bits: nat)
    requires bits < 32
    ensures DefaultEnd(bits) == Pow2(32 - bits) - 2
  {
    Pow2Of32();
    Pow2Monotone(32 - bits, 32);
    assert Pow2(32 - bits) == 2 * Pow2(31 - bits);
    if bits == 0 {
      assert DefaultEnd(bits) == Wrap(0 - 2);
    } else {
      Pow2Monotone(32 - bits, 31);
      SmallWrap(Pow2(32 - bits));
      SmallWrap(Pow2(32 - bits) - 2);
    }
  }
}
