/** Unsigned 32-bit arithmetic as Go performs it. */
module Unsigned {
  const U32: int := 0x1_0000_0000

  type u32 = x: int | 0 <= x < 0x1_0000_0000

  /** The conversion uint32(x), and the result of + and - on uint32. */
  function Wrap(x: int): u32 { x % 0x1_0000_0000 }

  lemma SmallWrap(x: int)
    requires 0 <= x < U32
    ensures Wrap(x) == x
  {}

  lemma WrapMinusOne(x: int)
    ensures Wrap(Wrap(x) - 1) == Wrap(x - 1)
  {}

  /** The least number of b..n outside the set, or 0 if there is none. */
  ghost function LeastClear(taken: set<int>, b: nat, n: nat): (r: nat)
    requires b >= 1
    ensures r == 0 <==> forall k | b <= k <= n :: k in taken
    ensures r != 0 ==> b <= r <= n && r !in taken && forall k | b <= k < r :: k in taken
    decreases n + 1 - b
  {
    if b > n then 0 else if b !in taken then b else LeastClear(taken, b + 1, n)
  }

  lemma LeastClearIs(taken: set<int>, b: nat, n: nat, r: nat)
    requires b >= 1
    requires r == 0 <==> forall k | b <= k <= n :: k in taken
    requires r != 0 ==> b <= r <= n && r !in taken && forall k | b <= k < r :: k in taken
    ensures LeastClear(taken, b, n) == r
  {
    var l := LeastClear(taken, b, n);
    if l != 0 && r != 0 { assert !(l < r) && !(r < l); }
  }

  /** The numbers lo..hi, both included. */
  ghost function Interval(lo: int, hi: int): (s: set<int>)
    ensures forall k :: k in s <==> lo <= k <= hi
    decreases hi - lo + 1
  {
    if lo > hi then {} else Interval(lo, hi - 1) + {hi}
  }

  lemma {:induction false} IntervalSize(lo: int, hi: int)
    ensures |Interval(lo, hi)| == if lo <= hi then hi - lo + 1 else 0
    decreases hi - lo + 1
  {
    if lo <= hi { IntervalSize(lo, hi - 1); }
  }

  /** A subset of an interval has as many elements as the interval only if it is all of it. */
  lemma FullSubset(s: set<int>, lo: int, hi: int)
    requires s <= Interval(lo, hi)
    ensures |Interval(lo, hi) - s| == |Interval(lo, hi)| - |s|
    ensures |s| == |Interval(lo, hi)| <==> s == Interval(lo, hi)
  {
    assert s + (Interval(lo, hi) - s) == Interval(lo, hi);
  }

  lemma CoversInterval(s: set<int>, lo: int, hi: int)
    requires s <= Interval(lo, hi)
    ensures s == Interval(lo, hi) <==> forall k | lo <= k <= hi :: k in s
  {}

  /** A proper superset of an interval has more elements. */
  lemma ProperSuperset(s: set<int>, lo: int, hi: int)
    requires Interval(lo, hi) < s
    ensures |s| > |Interval(lo, hi)|
  {
    assert Interval(lo, hi) + (s - Interval(lo, hi)) == s;
  }
}
