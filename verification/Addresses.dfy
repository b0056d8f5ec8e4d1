/** IPv4 addresses as the controller computes, writes and reads them. */
module Addresses {
  import opened Text
  import opened Runs
  import opened Unsigned

  function Pow2(n: nat): (p: nat)
    ensures p >= 1
  {
    if n == 0 then 1 else 2 * Pow2(n - 1)
  }

  lemma Pow2Of32()
    ensures Pow2(32) == U32
  {
    assert Pow2(8) == 0x100;
    assert Pow2(16) == 0x1_0000;
    assert Pow2(24) == 0x100_0000;
  }

  lemma {:induction false} Pow2Monotone(m: nat, n: nat)
    requires m <= n
    ensures Pow2(m) <= Pow2(n)
    decreases n
  {
    if m < n { Pow2Monotone(m, n - 1); }
  }

  /** Bitwise or. */
  function Or(x: nat, y: nat): nat
    decreases x + y
  {
    if x == 0 then y else if y == 0 then x
    else 2 * Or(x / 2, y / 2) + if x % 2 == 1 || y % 2 == 1 then 1 else 0
  }

  /** The h least significant bits of a number. */
  function Low(x: nat, h: nat): nat
  {
    if h == 0 then 0 else 2 * Low(x / 2, h - 1) + x % 2
  }

  lemma {:induction false} LowOfSmall(x: nat, h: nat)
    ensures Low(x, h) < Pow2(h)
    ensures Low(x, h) == x <==> x < Pow2(h)
    decreases h
  {
    if h > 0 { LowOfSmall(x / 2, h - 1); }
  }

  /** Where the low bits of x are clear, the low bits of x | y are those of y. */
  lemma {:induction false} OrLowBits(x: nat, y: nat, h: nat)
    requires Low(x, h) == 0
    ensures Low(Or(x, y), h) == Low(y, h)
    decreases h
  {
    if h > 0 {
      OrLowBits(x / 2, y / 2, h - 1);
      OrHalves(x, y);
    }
  }

  lemma OrHalves(x: nat, y: nat)
    ensures Or(x, y) / 2 == Or(x / 2, y / 2)
    ensures Or(x, y) % 2 == if x % 2 == 1 || y % 2 == 1 then 1 else 0
  {
    if x != 0 && y != 0 { assert Or(x, y) - 2 * Or(x / 2, y / 2) in {0, 1}; }
  }

  /** Numbers that share no bit are added by or. */
  lemma {:induction false} OrIsSum(x: nat, y: nat, h: nat)
    requires Low(x, h) == 0 && y < Pow2(h)
    ensures Or(x, y) == x + y
    decreases h
  {
    if h > 0 && y != 0 { OrIsSum(x / 2, y / 2, h - 1); }
  }

  lemma {:induction false} OrBound(x: nat, y: nat, h: nat)
    requires x < Pow2(h) && y < Pow2(h)
    ensures Or(x, y) < Pow2(h)
    decreases h
  {
    if h > 0 { OrBound(x / 2, y / 2, h - 1); }
  }

  /** A parsed network, such as 10.5.3.0/24: its address and the length of its prefix. */
  datatype Network = Network(ip: u32, bits: nat) {
    /** The number of bits that the mask clears. */
    function HostBits(): nat
      requires bits <= 32
    {
      32 - bits
    }

    ghost predicate Valid() { bits <= 32 && Low(ip, HostBits()) == 0 }

    /** x & mask == ip */
    predicate Contains(x: u32)
      requires bits <= 32
    {
      x - Low(x, HostBits()) == ip
    }
  }

  /** The four bytes of an address, most significant first. */
  function Octets(x: u32): (os: seq<nat>)
    ensures |os| == 4 && forall i | 0 <= i < 4 :: os[i] <= 255
  {
    var y := x / 0x100;
    var z := y / 0x100;
    [z / 0x100 % 0x100, z % 0x100, y % 0x100, x % 0x100]
  }

  function FromOctets(os: seq<nat>): u32
    requires |os| == 4 && forall i | 0 <= i < 4 :: os[i] <= 255
  {
    os[0] * 0x100_0000 + os[1] * 0x1_0000 + os[2] * 0x100 + os[3]
  }

  lemma OctetsRoundTrip(x: u32)
    ensures FromOctets(Octets(x)) == x
  {}

  /** Numbers separated by dots. */
  function DottedList(os: seq<nat>): string
    requires os != []
  {
    if |os| == 1 then Decimal(os[0]) else Decimal(os[0]) + ("." + DottedList(os[1..]))
  }

  function Dotted(x: u32): string { DottedList(Octets(x)) }

  /** The given count of numbers up to 255, separated by dots, and nothing else. */
  function ReadOctets(s: string, n: nat): (r: Option<seq<nat>>)
    requires n >= 1
    ensures r.Some? ==> |r.value| == n && forall i | 0 <= i < n :: r.value[i] <= 255
    decreases n
  {
    match ReadNumber(s)
    case None => None
    case Some((o, rest)) =>
      if o > 255 then None
      else if n == 1 then if rest == [] then Some([o]) else None
      else if rest == [] || rest[0] != '.' then None
      else match ReadOctets(rest[1..], n - 1)
           case None => None
           case Some(os) => Some([o] + os)
  }

  /** Reads a bare dotted address; a text that carries a prefix length is none. */
  function ReadDotted(s: string): Option<u32>
  {
    match ReadOctets(s, 4)
    case None => None
    case Some(os) => Some(FromOctets(os))
  }

  lemma ReadLast(o: nat)
    requires o <= 255
    ensures ReadOctets(Decimal(o), 1) == Some([o])
  {
    assert Decimal(o) + "" == Decimal(o);
    ReadNumberText(o, "");
  }

  lemma ReadNext(o: nat, s: string, n: nat, os: seq<nat>)
    requires o <= 255 && n >= 2 && ReadOctets(s, n - 1) == Some(os)
    ensures ReadOctets(Decimal(o) + ("." + s), n) == Some([o] + os)
  {
    ReadNumberText(o, "." + s);
    assert ("." + s)[1..] == s;
  }

  lemma {:induction false} ReadDottedList(os: seq<nat>)
    requires os != [] && forall i | 0 <= i < |os| :: os[i] <= 255
    ensures ReadOctets(DottedList(os), |os|) == Some(os)
  {
    HeadAndTail(os);
    if |os| == 1 {
      ReadLast(os[0]);
    } else {
      DottedCons(os);
      ReadDottedList(os[1..]);
      ReadNext(os[0], DottedList(os[1..]), |os|, os[1..]);
    }
  }

  lemma HeadAndTail(os: seq<nat>)
    requires os != []
    ensures [os[0]] + os[1..] == os && (|os| == 1 ==> [os[0]] == os)
  {}

  lemma DottedCons(os: seq<nat>)
    requires |os| >= 2
    ensures DottedList(os) == Decimal(os[0]) + ("." + DottedList(os[1..]))
  {}

  /** The most significant byte comes first. */
  lemma DottedExample()
    ensures Dotted(0x0A05_0307) == "10.5.3.7"
  {
    DottedFour(10, 5, 3, 7);
    FewDigits();
    assert Octets(0x0A05_0307) == [10, 5, 3, 7];
  }

  lemma DottedFour(a: nat, b: nat, c: nat, d: nat)
    ensures DottedList([a, b, c, d]) == Decimal(a) + ("." + (Decimal(b) + ("." + (Decimal(c) + ("." + Decimal(d))))))
  {
    DottedMore(c, [d]);
    DottedMore(b, [c, d]);
    DottedMore(a, [b, c, d]);
    assert [a] + [b, c, d] == [a, b, c, d] && [b] + [c, d] == [b, c, d] && [c] + [d] == [c, d];
  }

  lemma DottedMore(o: nat, os: seq<nat>)
    requires os != []
    ensures DottedList([o] + os) == Decimal(o) + ("." + DottedList(os))
  {
    assert ([o] + os)[1..] == os;
  }

  lemma FewDigits()
    ensures Decimal(10) == "10" && Decimal(5) == "5" && Decimal(3) == "3" && Decimal(7) == "7"
  {}

  /** A written address can be read back. */
  lemma ReadDottedText(x: u32)
    ensures ReadDotted(Dotted(x)) == Some(x)
  {
    ReadDottedList(Octets(x));
    OctetsRoundTrip(x);
  }

  /** The text before the first slash. */
  function StripSlash(s: string): string
  {
    if s == [] || s[0] == '/' then [] else [s[0]] + StripSlash(s[1..])
  }

  lemma {:induction false} StripPrefixLength(s: string, tail: string)
    requires '/' !in s
    ensures StripSlash(s + "/" + tail) == s
  {
    if s == [] {
      assert (s + "/" + tail)[0] == '/';
    } else {
      assert (s + "/" + tail)[1..] == s[1..] + "/" + tail;
      StripPrefixLength(s[1..], tail);
    }
  }

  lemma {:induction false} DottedHasNoSlash(os: seq<nat>)
    requires os != []
    ensures '/' !in DottedList(os)
  {
    assert '/' !in Decimal(os[0]);
    if |os| > 1 { DottedHasNoSlash(os[1..]); }
  }

  lemma {:induction false} DottedOnly(s: string, n: nat)
    requires n >= 1 && ReadOctets(s, n).Some?
    ensures '/' !in s
    decreases n
  {
    var k := DigitSpan(s);
    assert s == s[..k] + s[k..];
    if n > 1 { DottedOnly(s[k..][1..], n - 1); }
  }
}
