/** The run lists that the bitmap prints, such as 1,3-5,255, and how to read one back. */
module Runs {
  import opened Text

  datatype Option<T> = None | Some(value: T)

  datatype Run = Run(first: nat, last: nat)

  function RunText(r: Run): string
  {
    Decimal(r.first) + if r.first == r.last then "" else "-" + Decimal(r.last)
  }

  function RunsText(rs: seq<Run>): string
  {
    if rs == [] then "" else if |rs| == 1 then RunText(rs[0])
    else RunText(rs[0]) + "," + RunsText(rs[1..])
  }

  /** A run list followed by the comma that precedes one more run. */
  function Join(rs: seq<Run>): string { if rs == [] then "" else RunsText(rs) + "," }

  /** Ascending runs with at least one clear bit between neighbours: disjoint and maximal. */
  ghost predicate Canonical(rs: seq<Run>)
  {
    && (forall i | 0 <= i < |rs| :: rs[i].first <= rs[i].last)
    && (forall i, j | 0 <= i < j < |rs| :: rs[i].last + 1 < rs[j].first)
  }

  /** The bits a run list stands for. */
  ghost predicate InRuns(rs: seq<Run>, k: int) { exists i | 0 <= i < |rs| :: rs[i].first <= k <= rs[i].last }

  lemma {:induction false} RunsTextSnoc(rs: seq<Run>, r: Run)
    ensures RunsText(rs + [r]) == Join(rs) + RunText(r)
  {
    if |rs| > 0 {
      assert (rs + [r])[1..] == rs[1..] + [r];
      RunsTextSnoc(rs[1..], r);
      if |rs| == 1 { assert rs[1..] == []; }
    }
  }

  lemma CanonicalSnoc(rs: seq<Run>, r: Run)
    requires Canonical(rs) && r.first <= r.last
    requires rs != [] ==> rs[|rs| - 1].last + 1 < r.first
    ensures Canonical(rs + [r])
  {
    var all := rs + [r];
    forall i, j | 0 <= i < j < |all| ensures all[i].last + 1 < all[j].first {
      if j == |rs| && i < |rs| - 1 { assert rs[i].last + 1 < rs[|rs| - 1].first; }
    }
  }

  lemma InRunsSnoc(rs: seq<Run>, r: Run, k: int)
    ensures InRuns(rs + [r], k) <==> InRuns(rs, k) || r.first <= k <= r.last
  {
    var all := rs + [r];
    if InRuns(rs, k) {
      var i :| 0 <= i < |rs| && rs[i].first <= k <= rs[i].last;
      assert all[i] == rs[i];
    }
    if r.first <= k <= r.last { assert all[|rs|] == r; }
    if InRuns(all, k) {
      var i :| 0 <= i < |all| && all[i].first <= k <= all[i].last;
      if i < |rs| { assert rs[i] == all[i]; }
    }
  }

  /**
   * What is known when the bits below i have been printed: the closed runs, and the
   * first bit of the run still open, cover exactly the set bits below i.
   */
  ghost predicate Scanned(rs: seq<Run>, onARun: bool, from: nat, i: nat, bits: set<int>)
  {
    var end := if onARun then from else i;
    && (onARun || from == 0)
    && Canonical(rs) && (rs != [] ==> rs[|rs| - 1].last + 1 < end)
    && (forall k :: InRuns(rs, k) <==> k in bits && k < end)
    && (onARun ==> from < i && forall k | from <= k < i :: k in bits)
  }

  lemma ScanEnd(rs: seq<Run>, from: nat, i: nat, bits: set<int>)
    requires Scanned(rs, true, from, i, bits) && i !in bits
    ensures Scanned(rs + [Run(from, i - 1)], false, 0, i + 1, bits)
  {
    CanonicalSnoc(rs, Run(from, i - 1));
    forall k ensures InRuns(rs + [Run(from, i - 1)], k) <==> k in bits && k < i + 1 {
      InRunsSnoc(rs, Run(from, i - 1), k);
    }
  }

  /** The state of the printing loop: the closed runs, and whether a run is open and since which bit. */
  datatype Scan = Scan(runs: seq<Run>, onARun: bool, from: nat)

  /** The state after bit i, too, has been looked at. */
  ghost function ScanOne(s: Scan, bits: set<int>, i: nat): Scan
    requires i >= 1
  {
    if i in bits then Scan(s.runs, true, if s.onARun then s.from else i)
    else Scan(if s.onARun then s.runs + [Run(s.from, i - 1)] else s.runs, false, 0)
  }

  /** The state after bits 1..i have been looked at. */
  ghost function ScanTo(bits: set<int>, i: nat): Scan
  {
    if i == 0 then Scan([], false, 0) else ScanOne(ScanTo(bits, i - 1), bits, i)
  }

  lemma ScanStep(s: Scan, i: nat, bits: set<int>)
    requires i >= 1 && Scanned(s.runs, s.onARun, s.from, i, bits)
    ensures var t := ScanOne(s, bits, i); Scanned(t.runs, t.onARun, t.from, i + 1, bits)
  {
    if i !in bits && s.onARun { ScanEnd(s.runs, s.from, i, bits); }
  }

  lemma {:induction false} ScanToIsScanned(bits: set<int>, i: nat)
    requires forall k | k in bits :: k >= 1
    ensures var s := ScanTo(bits, i); Scanned(s.runs, s.onARun, s.from, i + 1, bits)
  {
    if i > 0 {
      ScanToIsScanned(bits, i - 1);
      ScanStep(ScanTo(bits, i - 1), i, bits);
    }
  }

  /** The runs of bits 1..n, the last one closed. */
  ghost function AllRuns(bits: set<int>, n: nat): seq<Run>
  {
    var s := ScanTo(bits, n);
    if s.onARun then s.runs + [Run(s.from, n)] else s.runs
  }

  /** The printed runs are canonical and cover exactly the set bits. */
  lemma AllRunsCover(bits: set<int>, n: nat)
    requires forall k | k in bits :: 1 <= k <= n
    ensures Canonical(AllRuns(bits, n))
    ensures forall k :: InRuns(AllRuns(bits, n), k) <==> k in bits
  {
    ScanToIsScanned(bits, n);
    var s := ScanTo(bits, n);
    if s.onARun { ScanEnd(s.runs, s.from, n + 1, bits); }
  }

  /** The text printed so far, with the first bit of the run still open. */
  function Printed(s: Scan): string
  {
    if s.onARun then Join(s.runs) + Decimal(s.from) else RunsText(s.runs)
  }

  lemma PrintStart(rs: seq<Run>, i: nat)
    ensures Printed(Scan(rs, false, 0)) + (if rs != [] then "," else "") + Decimal(i) == Printed(Scan(rs, true, i))
    ensures rs == [] ==> Printed(Scan(rs, false, 0)) + Decimal(i) == Printed(Scan(rs, true, i))
  {}

  lemma PrintEnd(rs: seq<Run>, from: nat, last: nat)
    ensures from != last ==> Printed(Scan(rs, true, from)) + ("-" + Decimal(last)) == RunsText(rs + [Run(from, last)])
    ensures from == last ==> Printed(Scan(rs, true, from)) == RunsText(rs + [Run(from, last)])
  {
    RunsTextSnoc(rs, Run(from, last));
    var j, d := Join(rs), Decimal(from);
    if from == last { assert j + (d + "") == j + d; }
    else { assert j + (d + ("-" + Decimal(last))) == j + d + ("-" + Decimal(last)); }
  }

  function ReadNumber(s: string): Option<(nat, string)>
  {
    var k := DigitSpan(s);
    if k == 0 then None else Some((Value(s[..k]), s[k..]))
  }

  /** One run and what follows it. */
  function ReadRun(s: string): Option<(Run, string)>
  {
    match ReadNumber(s)
    case None => None
    case Some((first, rest)) =>
      if rest == [] || rest[0] != '-' then Some((Run(first, first), rest)) else
      match ReadNumber(rest[1..])
      case None => None
      case Some((last, rest')) => Some((Run(first, last), rest'))
  }

  /** Reads a printed run list. */
  function ReadRuns(s: string): Option<seq<Run>>
    decreases |s|
  {
    if s == [] then Some([]) else
    match ReadRun(s)
    case None => None
    case Some((r, rest)) =>
      if rest == [] then Some([r])
      else if rest[0] != ',' || |rest| == 1 || |rest| > |s| then None
      else match ReadRuns(rest[1..])
           case None => None
           case Some(rs) => Some([r] + rs)
  }

  lemma ReadNumberText(n: nat, rest: string)
    requires Ends(rest)
    ensures ReadNumber(Decimal(n) + rest) == Some((n, rest))
  {
    ReadDecimal(n, rest);
  }

  lemma ReadRunText(r: Run, rest: string)
    requires rest == [] || rest[0] == ','
    ensures ReadRun(RunText(r) + rest) == Some((r, rest))
  {
    if r.first == r.last {
      assert RunText(r) + rest == Decimal(r.first) + rest;
      ReadNumberText(r.first, rest);
    } else {
      var tail := "-" + (Decimal(r.last) + rest);
      assert RunText(r) + rest == Decimal(r.first) + tail;
      ReadNumberText(r.first, tail);
      assert tail[1..] == Decimal(r.last) + rest;
      ReadNumberText(r.last, rest);
    }
  }

  /** The printed form of a run list determines it. */
  lemma {:induction false} ReadRunsText(rs: seq<Run>)
    ensures ReadRuns(RunsText(rs)) == Some(rs)
  {
    if |rs| == 1 {
      assert RunText(rs[0]) + "" == RunText(rs[0]);
      ReadRunText(rs[0], "");
      assert [rs[0]] == rs;
    } else if |rs| > 1 {
      var tail := "," + RunsText(rs[1..]);
      assert RunsText(rs) == RunText(rs[0]) + tail;
      ReadRunText(rs[0], tail);
      assert tail[1..] == RunsText(rs[1..]);
      ReadRunsText(rs[1..]);
      assert [rs[0]] + rs[1..] == rs;
    }
  }
}
