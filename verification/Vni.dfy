/** The VNI allocator of plugins/controller/idapi/vxlan.go: a range of numbers over a bitmap. */
module Vnis {
  import opened Unsigned
  import opened Bitmaps

  /** A VNI range; the count of its numbers is computed with uint32 arithmetic. */
  datatype Range = Range(start: u32, end: u32) {
    function Size(): u32 { Wrap(end - start + 1) }

    /** The number that a bit stands for. */
    function VniOf(bit: int): u32 { Wrap(bit + start - 1) }
  }

  datatype Op = Mark(vni: u32) | Allocate

  datatype Outcome = Marked | Rejected | Allocated(vni: u32) | Exhausted

  /** One call on an allocator of range r whose set of taken bits is given. */
  ghost function Step(r: Range, taken: set<int>, op: Op): (set<int>, Outcome)
  {
    match op
    case Mark(vni) =>
      if r.start <= vni <= r.end && 1 <= Wrap(vni - r.start + 1) <= r.Size()
      then (taken + {Wrap(vni - r.start + 1)}, Marked) else (taken, Rejected)
    case Allocate =>
      var bit := LeastClear(taken, 1, r.Size());
      if bit == 0 then (taken, Exhausted) else (taken + {bit}, Allocated(r.VniOf(bit)))
  }

  ghost function After(r: Range, taken: set<int>, ops: seq<Op>): set<int>
    decreases ops
  {
    if ops == [] then taken else After(r, Step(r, taken, ops[0]).0, ops[1..])
  }

  ghost function Outcomes(r: Range, taken: set<int>, ops: seq<Op>): (out: seq<Outcome>)
    ensures |out| == |ops|
    decreases ops
  {
    if ops == [] then [] else [Step(r, taken, ops[0]).1] + Outcomes(r, Step(r, taken, ops[0]).0, ops[1..])
  }

  class VniAllocator {
    const range: Range
    const bm: Bitmap

    ghost predicate Valid() { bm.Valid() && bm.numBits == range.Size() }

    ghost function Taken(): set<int>
      requires Valid()
      reads bm.words
    {
      bm.Contents()
    }

    constructor (start: u32, end: u32)
      ensures Valid() && range == Range(start, end) && Taken() == {} && fresh(bm.words)
    {
      range := Range(start, end);
      bm := new Bitmap(Range(start, end).Size());
    }

    method SetVni(vni: u32) returns (ok: bool)
      requires Valid()
      modifies bm.words
      ensures (Taken(), if ok then Marked else Rejected) == Step(range, old(Taken()), Mark(vni))
    {
      if vni < range.start || vni > range.end { return false; }
      ok := bm.Set(Wrap(vni - range.start + 1));
    }

    method AllocateVni() returns (vni: u32, ok: bool)
      requires Valid()
      modifies bm.words
      ensures (Taken(), if ok then Allocated(vni) else Exhausted) == Step(range, old(Taken()), Allocate)
      ensures !ok ==> vni == 0
    {
      var freeBit := bm.FindFirstClear();
      ghost var taken := Taken();
      LeastClearIs(taken, 1, range.Size(), freeBit);
      if freeBit == 0 { return 0, false; }
      ok := bm.Set(freeBit);
      assert Taken() == taken + {freeBit};
      vni := Wrap(Wrap(freeBit + range.start) - 1);
      WrapMinusOne(freeBit + range.start);
    }
  }

  /** The taken bits stay within the range's bits. */
  lemma StepStaysInside(r: Range, taken: set<int>, op: Op)
    requires taken <= Interval(1, r.Size())
    ensures taken <= Step(r, taken, op).0 <= Interval(1, r.Size())
  {}

  /** The numbers that the taken bits stand for. */
  ghost function Numbers(r: Range, taken: set<int>): set<u32>
  {
    set bit | bit in taken && 1 <= bit <= r.Size() :: r.VniOf(bit)
  }

  /** The numbers that an overlay's allocator has handed out or marked; an overlay may have none. */
  ghost function NumbersOf(a: VniAllocator?): set<u32>
    requires a != null ==> a.Valid()
    reads if a == null then {} else {a.bm.words}
  {
    if a == null then {} else Numbers(a.range, a.Taken())
  }

  lemma VniOfInjective(r: Range, b: int, c: int)
    requires 1 <= b <= r.Size() && 1 <= c <= r.Size() && r.VniOf(b) == r.VniOf(c)
    ensures b == c
  {}

  /** Whatever the range is, an allocation gives a number that was not taken, and takes it. */
  lemma AllocatesNew(r: Range, taken: set<int>)
    ensures var (taken', out) := Step(r, taken, Allocate);
            && (out.Allocated? ==> out.vni !in Numbers(r, taken) && Numbers(r, taken') == Numbers(r, taken) + {out.vni})
            && (!out.Allocated? ==> taken' == taken)
  {
    var bit := LeastClear(taken, 1, r.Size());
    if bit != 0 {
      forall b | b in taken && 1 <= b <= r.Size() ensures r.VniOf(b) != r.VniOf(bit) {
        if r.VniOf(b) == r.VniOf(bit) { VniOfInjective(r, b, bit); }
      }
      assert r.VniOf(bit) in Numbers(r, taken + {bit});
    }
  }

  /** A number can be taken exactly if it lies in the range, unless the count of the range wraps to 0. */
  lemma MarksItsNumber(r: Range, taken: set<int>, vni: u32)
    ensures var (taken', out) := Step(r, taken, Mark(vni));
            && (out == Marked <==> r.start <= vni <= r.end && r.Size() != 0)
            && Numbers(r, taken') == Numbers(r, taken) + if out == Marked then {vni} else {}
  {
    if r.start <= vni <= r.end && r.Size() != 0 {
      var bit := Wrap(vni - r.start + 1);
      assert bit == vni - r.start + 1 && r.VniOf(bit) == vni && r.Size() == r.end - r.start + 1;
      assert forall b :: b in taken + {bit} <==> b in taken || b == bit;
    }
  }

  /** A new allocator starts with the first number of its range. */
  lemma FirstIsStart(r: Range)
    requires r.Size() != 0
    ensures Step(r, {}, Allocate).1 == Allocated(r.start) && Numbers(r, Step(r, {}, Allocate).0) == {r.start}
  {
    assert LeastClear({}, 1, r.Size()) == 1;
    AllocatesNew(r, {});
  }

  /** How many of the bits up to n are clear. */
  ghost function Clear(taken: set<int>, n: nat): nat
  {
    if n == 0 then 0 else Clear(taken, n - 1) + if n in taken then 0 else 1
  }

  lemma {:induction false} ClearIs(taken: set<int>, n: nat)
    ensures Clear(taken, n) == |Interval(1, n) - taken|
  {
    if n == 0 {
      assert Interval(1, n) - taken == {};
    } else {
      ClearIs(taken, n - 1);
      OneMoreBit(taken, n);
    }
  }

  lemma OneMoreBit(taken: set<int>, n: nat)
    requires n > 0
    ensures |Interval(1, n) - taken| == |Interval(1, n - 1) - taken| + if n in taken then 0 else 1
  {
    var before := Interval(1, n - 1) - taken;
    if n in taken {
      assert Interval(1, n) - taken == before;
    } else {
      assert Interval(1, n) - taken == before + {n};
    }
  }

  /** How many numbers of a range are left. */
  ghost function Free(r: Range, taken: set<int>): nat { Clear(taken, r.Size()) }

  ghost function FreeOf(a: VniAllocator?): nat
    requires a != null ==> a.Valid()
    reads if a == null then {} else {a.bm.words}
  {
    if a == null then 0 else Free(a.range, a.Taken())
  }

  /** A draw from an allocator: it gives what the allocator's specification does. */
  ghost predicate Drawn(r: Range, taken: set<int>, taken': set<int>, vni: u32, ok: bool)
  {
    var step := Step(r, taken, Allocate);
    taken' == step.0 && (ok <==> step.1.Allocated?) && (ok ==> step.1 == Allocated(vni))
  }

  /** What it does to the numbers that are taken and to those that are left. */
  lemma DrawnIs(r: Range, taken: set<int>, taken': set<int>, vni: u32, ok: bool)
    requires Drawn(r, taken, taken', vni, ok)
    ensures Numbers(r, taken) <= Numbers(r, taken') && (ok <==> Free(r, taken) > 0)
    ensures Free(r, taken') == Free(r, taken) - if ok then 1 else 0
    ensures ok ==> vni !in Numbers(r, taken) && vni in Numbers(r, taken')
  {
    AllocatesNew(r, taken);
    AllocatesIfFree(r, taken);
  }

  /** An allocation succeeds exactly if a number is left, and leaves one less. */
  lemma AllocatesIfFree(r: Range, taken: set<int>)
    ensures var (taken', out) := Step(r, taken, Allocate);
            && (out.Allocated? <==> Free(r, taken) > 0)
            && Free(r, taken') == if out.Allocated? then Free(r, taken) - 1 else Free(r, taken)
  {
    var bit, left := LeastClear(taken, 1, r.Size()), Interval(1, r.Size()) - taken;
    ClearIs(taken, r.Size());
    ClearIs(taken + {bit}, r.Size());
    if bit != 0 {
      assert bit in left && Interval(1, r.Size()) - (taken + {bit}) == left - {bit};
    } else {
      assert left == {};
    }
  }

  /** Each outcome of a run is that of its call on what the calls before it left. */
  lemma {:induction false} RunOutcome(r: Range, taken: set<int>, ops: seq<Op>, i: nat)
    requires i < |ops|
    ensures Outcomes(r, taken, ops)[i] == Step(r, After(r, taken, ops[..i]), ops[i]).1
    decreases ops
  {
    if i > 0 {
      assert ops[..i][0] == ops[0] && ops[..i][1..] == ops[1..][..i - 1];
      RunOutcome(r, Step(r, taken, ops[0]).0, ops[1..], i - 1);
    }
  }

  lemma {:induction false} RunKeepsNumbers(r: Range, taken: set<int>, ops: seq<Op>)
    ensures Numbers(r, taken) <= Numbers(r, After(r, taken, ops))
    decreases ops
  {
    if ops != [] {
      assert taken <= Step(r, taken, ops[0]).0;
      RunKeepsNumbers(r, Step(r, taken, ops[0]).0, ops[1..]);
    }
  }

  /** Over every run of calls, each allocation gives a number that was not taken before the run. */
  lemma RunAllocatesFresh(r: Range, taken: set<int>, ops: seq<Op>, i: nat)
    requires i < |ops| && Outcomes(r, taken, ops)[i].Allocated?
    ensures Outcomes(r, taken, ops)[i].vni !in Numbers(r, taken)
  {
    RunOutcome(r, taken, ops, i);
    AllocatesNew(r, After(r, taken, ops[..i]));
    RunKeepsNumbers(r, taken, ops[..i]);
  }

  /** No run of calls hands out one number twice, whatever the range is. */
  lemma {:induction false} RunAllocatesDistinct(r: Range, taken: set<int>, ops: seq<Op>, i: nat, j: nat)
    requires i < j < |ops| && Outcomes(r, taken, ops)[i].Allocated? && Outcomes(r, taken, ops)[j].Allocated?
    ensures Outcomes(r, taken, ops)[i].vni != Outcomes(r, taken, ops)[j].vni
    decreases ops
  {
    var taken' := Step(r, taken, ops[0]).0;
    if i > 0 {
      RunAllocatesDistinct(r, taken', ops[1..], i - 1, j - 1);
    } else {
      AllocatesNew(r, taken);
      RunAllocatesFresh(r, taken', ops[1..], j - 1);
    }
  }

  /** An allocation in a run fails exactly when every number of the range is taken by then. */
  lemma {:induction false} RunExhaustsExactlyWhenFull(r: Range, taken: set<int>, ops: seq<Op>, i: nat)
    requires taken <= Interval(1, r.Size()) && i < |ops| && ops[i].Allocate?
    ensures Outcomes(r, taken, ops)[i] == Exhausted <==> |After(r, taken, ops[..i])| == r.Size()
    decreases ops
  {
    if i == 0 {
      assert ops[..0] == [];
      IntervalSize(1, r.Size());
      FullSubset(taken, 1, r.Size());
    } else {
      StepStaysInside(r, taken, ops[0]);
      assert ops[..i][0] == ops[0] && ops[..i][1..] == ops[1..][..i - 1];
      RunExhaustsExactlyWhenFull(r, Step(r, taken, ops[0]).0, ops[1..], i - 1);
    }
  }

  /** A range that is not reversed gives numbers inside it only. */
  lemma AllocatedInRange(r: Range, taken: set<int>)
    requires r.start <= r.end || r.Size() == 0
    ensures var out := Step(r, taken, Allocate).1; out.Allocated? ==> r.start <= out.vni <= r.end
  {}

  /** The call at a position of a run allocates nothing, or a number in range. */
  ghost predicate InRangeAt(r: Range, ops: seq<Op>, i: nat)
    requires i < |ops|
  {
    var out := Outcomes(r, {}, ops)[i];
    out.Allocated? ==> r.start <= out.vni <= r.end
  }

  /** Every allocation of every run is in range exactly if the range is not reversed, or has size 0. */
  lemma InRangeExactlyIf(r: Range)
    ensures (forall ops, i: nat | i < |ops| :: InRangeAt(r, ops, i)) <==> r.start <= r.end || r.Size() == 0
  {
    if r.start <= r.end || r.Size() == 0 {
      forall ops, i: nat | i < |ops| ensures InRangeAt(r, ops, i) {
        RunOutcome(r, {}, ops, i);
        AllocatedInRange(r, After(r, {}, ops[..i]));
      }
    } else {
      assert Outcomes(r, {}, [Allocate])[0] == Allocated(r.start);
      assert !InRangeAt(r, [Allocate], 0);
    }
  }

  /** A reversed range is reported by validation and created all the same; it hands out numbers above its end. */
  lemma ReversedRangeLeaves()
    ensures Step(Range(10, 5), {}, Allocate).1 == Allocated(10)
  {
    assert LeastClear({}, 1, Range(10, 5).Size()) == 1;
  }
}
