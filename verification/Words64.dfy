/** Single bits of a uint64, counted from the most significant one. */
module Words64 {
  const TOP: bv64 := 0x8000_0000_0000_0000
  const ALL_BITS_SET: bv64 := 0xFFFF_FFFF_FFFF_FFFF

  /** Bit j of a word; shifting left brings the next bit to the top. */
  predicate Bit(w: bv64, j: nat)
    decreases j
  {
    if j == 0 then w >= TOP else Bit(w << 1, j - 1)
  }

  /** j shifts bring the only set bit of m to the top: m is the mask of bit j. */
  ghost predicate IsMask(m: bv64, j: nat)
    decreases j
  {
    if j == 0 then m == TOP else m < TOP && IsMask(m << 1, j - 1)
  }

  lemma NextShift(b: bv6)
    requires b < 63
    ensures (1 as bv64) << (b + 1) == ((1 as bv64) << b) << 1
    ensures (1 as bv64) << b < TOP
    ensures (b + 1) as int == b as int + 1
  {}

  /** A left shift of 1 is the mask of its bit. */
  lemma {:induction false} ShiftIsMask(b: bv6)
    ensures 0 <= b as int <= 63
    ensures IsMask((1 as bv64) << b, 63 - b as int)
    decreases 63 - b
  {
    if b < 63 {
      NextShift(b);
      ShiftIsMask(b + 1);
    }
  }

  /** 1 << (63 - j), as the source writes it. */
  function Shifted(j: nat): bv64
    requires j < 64
  {
    (1 as bv64) << ((63 - j) as bv6)
  }

  lemma ShiftAmount(s: nat)
    requires s < 64
    ensures (s as bv6) as int == s
  {}

  lemma ShiftedIsMask(j: nat)
    requires j < 64
    ensures IsMask(Shifted(j), j)
  {
    ShiftAmount(63 - j);
    ShiftIsMask((63 - j) as bv6);
  }

  lemma {:induction false} ZeroBits(t: nat)
    ensures !Bit(0, t)
  {
    if t > 0 { ZeroBits(t - 1); }
  }

  lemma {:induction false} MaskBits(m: bv64, s: nat, t: nat)
    requires IsMask(m, s)
    ensures Bit(m, t) <==> s == t
    decreases t
  {
    if t > 0 && s == 0 {
      ZeroBits(t - 1);
    } else if t > 0 {
      MaskBits(m << 1, s - 1, t - 1);
    }
  }

  lemma AndNotBits(v: bv64, w: bv64, t: nat)
    ensures Bit(v & !w, t) <==> Bit(v, t) && !Bit(w, t)
  {
    AndNotIs(v & !w, v, w, t);
  }

  lemma {:induction false} AndNotIs(x: bv64, v: bv64, w: bv64, t: nat)
    requires x == v & !w
    ensures Bit(x, t) <==> Bit(v, t) && !Bit(w, t)
    decreases t
  {
    if t > 0 {
      var x', v', w' := x << 1, v << 1, w << 1;
      ShiftAndNot(x, v, w, x', v', w');
      AndNotIs(x', v', w', t - 1);
    }
  }

  lemma ShiftAndNot(x: bv64, v: bv64, w: bv64, x': bv64, v': bv64, w': bv64)
    requires x == v & !w && x' == x << 1 && v' == v << 1 && w' == w << 1
    ensures x' == v' & !w'
  {}

  lemma OrBits(v: bv64, w: bv64, t: nat)
    ensures Bit(v | w, t) <==> Bit(v, t) || Bit(w, t)
  {
    AndNotBits(v, w, t);
    AndNotBits(v | w, w, t);
    assert (v | w) & !w == v & !w;
    AndNotBits(w, v | w, t);
    assert w & !(v | w) == 0;
    ZeroBits(t);
  }

  lemma {:induction false} TestBit(w: bv64, m: bv64, j: nat)
    requires IsMask(m, j)
    ensures Bit(w, j) <==> w & m != 0
    decreases j
  {
    if j == 0 { TestTop(w, m); return; }
    var v, n := w << 1, m << 1;
    TestBit(v, n, j - 1);
    TestStep(w, m, v, n, j);
  }

  lemma TestTop(w: bv64, m: bv64)
    requires IsMask(m, 0)
    ensures Bit(w, 0) <==> w & m != 0
  {}

  lemma ShiftBoth(w: bv64, m: bv64)
    requires m < TOP
    ensures w & m != 0 <==> (w << 1) & (m << 1) != 0
  {}

  lemma TestStep(w: bv64, m: bv64, v: bv64, n: bv64, j: nat)
    requires j > 0 && m < TOP && v == w << 1 && n == m << 1
    requires Bit(v, j - 1) <==> v & n != 0
    ensures Bit(w, j) <==> w & m != 0
  {
    ShiftBoth(w, m);
  }

  lemma OrMask(w: bv64, m: bv64, j: nat, t: nat)
    requires IsMask(m, j)
    ensures Bit(w | m, t) <==> t == j || Bit(w, t)
  {
    OrBits(w, m, t);
    MaskBits(m, j, t);
  }

  lemma AndNotMask(w: bv64, m: bv64, j: nat, t: nat)
    requires IsMask(m, j)
    ensures Bit(w & !m, t) <==> t != j && Bit(w, t)
  {
    AndNotBits(w, m, t);
    MaskBits(m, j, t);
  }

  lemma FullWord(t: nat)
    requires t < 64
    ensures Bit(ALL_BITS_SET, t)
  {
    var m := Shifted(t);
    ShiftedIsMask(t);
    OrMask(ALL_BITS_SET, m, t, t);
    assert ALL_BITS_SET | m == ALL_BITS_SET;
  }

  /** w with bit j set, as w |= 1 << (63 - j). */
  method SetBit(w: bv64, j: nat) returns (r: bv64)
    requires j < 64
    ensures forall t: nat :: Bit(r, t) <==> t == j || Bit(w, t)
  {
    var m := Shifted(j);
    r := w | m;
    ShiftedIsMask(j);
    forall t: nat ensures Bit(r, t) <==> t == j || Bit(w, t) { OrMask(w, m, j, t); }
  }

  /** w with bit j cleared, as w &^= 1 << (63 - j). */
  method ClearBit(w: bv64, j: nat) returns (r: bv64)
    requires j < 64
    ensures forall t: nat :: Bit(r, t) <==> t != j && Bit(w, t)
  {
    var m := Shifted(j);
    r := w & !m;
    ShiftedIsMask(j);
    forall t: nat ensures Bit(r, t) <==> t != j && Bit(w, t) { AndNotMask(w, m, j, t); }
  }

  /** Whether w & (1 << (63 - j)) is not zero. */
  method IsBitSet(w: bv64, j: nat) returns (b: bool)
    requires j < 64
    ensures b == Bit(w, j)
  {
    var m := Shifted(j);
    ShiftedIsMask(j);
    TestBit(w, m, j);
    b := w & m != 0;
  }
}
