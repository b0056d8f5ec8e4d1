/** The bitmap of plugins/controller/idapi/bitmap: bits 1..numBits, most significant bit first. */
module Bitmaps {
  import opened Text
  import opened Unsigned
  import opened Runs
  import opened Words64

  /** Words in the array; the subtraction wraps, so a bitmap of no bits gets 2^26 of them. */
  function WordCount(numBits: u32): (n: nat)
    ensures numBits <= n * 64 <= U32
  {
    Wrap(numBits - 1) / 64 + 1
  }

  /** Bit i of a word array, counted from 1. */
  predicate BitAt(ws: seq<bv64>, i: int)
    requires 1 <= i <= |ws| * 64
  {
    Bit(ws[(i - 1) / 64], (i - 1) % 64)
  }

  /** The set bits among the first n. */
  ghost function SetBits(ws: seq<bv64>, n: nat): (s: set<int>)
    requires n <= |ws| * 64
    ensures forall k | k in s :: 1 <= k <= n
  {
    if n == 0 then {} else SetBits(ws, n - 1) + if BitAt(ws, n) then {n} else {}
  }

  lemma {:induction false} SetBitsMember(ws: seq<bv64>, n: nat, i: int)
    requires 1 <= i <= n <= |ws| * 64
    ensures i in SetBits(ws, n) <==> BitAt(ws, i)
  {
    if i < n { SetBitsMember(ws, n - 1, i); } else { assert i !in SetBits(ws, n - 1); }
  }

  lemma SetBitsIs(ws: seq<bv64>, n: nat, s: set<int>)
    requires n <= |ws| * 64 && forall k | k in s :: 1 <= k <= n
    requires forall i | 1 <= i <= n :: i in s <==> BitAt(ws, i)
    ensures SetBits(ws, n) == s
  {
    forall i | 1 <= i <= n ensures i in SetBits(ws, n) <==> i in s { SetBitsMember(ws, n, i); }
  }

  lemma FullWordIsSet(ws: seq<bv64>, n: nat, w: nat)
    requires n <= |ws| * 64 && w < |ws| && ws[w] == ALL_BITS_SET
    ensures forall k | 1 <= k <= n && w * 64 < k <= w * 64 + 64 :: k in SetBits(ws, n)
  {
    forall k | 1 <= k <= n && w * 64 < k <= w * 64 + 64 ensures k in SetBits(ws, n) {
      SetBitsMember(ws, n, k);
      FullWord((k - 1) % 64);
    }
  }

  /** Changing bit i of its word changes that bit and no other. */
  lemma ChangeOneBit(ws: seq<bv64>, n: nat, i: int, w: bv64, on: bool)
    requires 1 <= i <= n <= |ws| * 64
    requires forall t: nat :: Bit(w, t) <==> if t == (i - 1) % 64 then on else Bit(ws[(i - 1) / 64], t)
    ensures SetBits(ws[(i - 1) / 64 := w], n) == SetBits(ws, n) - {i} + if on then {i} else {}
  {
    var ws' := ws[(i - 1) / 64 := w];
    var s := SetBits(ws, n) - {i} + if on then {i} else {};
    forall k | 1 <= k <= n ensures k in s <==> BitAt(ws', k) { SetBitsMember(ws, n, k); }
    SetBitsIs(ws', n, s);
  }

  class Bitmap {
    const words: array<bv64>
    const numBits: u32

    ghost predicate Valid() { words.Length == WordCount(numBits) }

    /** The set of set bits, the value the bitmap stands for. */
    ghost function Contents(): set<int>
      requires Valid()
      reads words
    {
      SetBits(words[..], numBits)
    }

    constructor (numBits: u32)
      ensures Valid() && this.numBits == numBits && fresh(words)
      ensures Contents() == {}
    {
      this.numBits := numBits;
      words := new bv64[WordCount(numBits)](_ => 0);
      new;
      forall t: nat { ZeroBits(t); }
      SetBitsIs(words[..], numBits, {});
    }

    method IsSet(i: u32) returns (b: bool)
      requires Valid()
      ensures b == (i in Contents())
    {
      if i < 1 || i > numBits { return false; }
      SetBitsMember(words[..], numBits, i);
      b := IsBitSet(words[(i - 1) / 64], (i - 1) % 64);
    }

    method Set(i: u32) returns (ok: bool)
      requires Valid()
      modifies words
      ensures ok == (1 <= i <= numBits)
      ensures Contents() == old(Contents()) + (if ok then {i} else {})
    {
      if i < 1 || i > numBits { return false; }
      var w := SetBit(words[(i - 1) / 64], (i - 1) % 64);
      ChangeOneBit(words[..], numBits, i, w, true);
      words[(i - 1) / 64] := w;
      return true;
    }

    method Clear(i: u32)
      requires Valid()
      modifies words
      ensures Contents() == old(Contents()) - {i}
    {
      if i < 1 || i > numBits { return; }
      var w := ClearBit(words[(i - 1) / 64], (i - 1) % 64);
      ChangeOneBit(words[..], numBits, i, w, false);
      words[(i - 1) / 64] := w;
    }

    /** The bits up to n are set. */
    ghost predicate FullTo(n: nat)
      requires Valid()
      reads words
    {
      forall k | 1 <= k <= numBits && k <= n :: k in Contents()
    }

    /** The least clear bit, or 0 exactly when there is none; the candidate bit wraps at 2^32. */
    method FindFirstClear() returns (r: u32)
      requires Valid()
      ensures r == 0 <==> forall k | 1 <= k <= numBits :: k in Contents()
      ensures r != 0 ==> 1 <= r <= numBits && r !in Contents()
      ensures r != 0 ==> forall k | 1 <= k < r :: k in Contents()
    {
      for i := 0 to words.Length
        invariant FullTo(i * 64)
      {
        if words[i] != ALL_BITS_SET {
          var found;
          found, r := FindInWord(i * 64);
          if found { return; }
        } else {
          FullWordIsSet(words[..], numBits, i);
        }
      }
      return 0;
    }

    /** The inner loop, over the bits of the word after the first so many bits. */
    method FindInWord(base: nat) returns (found: bool, r: u32)
      requires Valid() && base + 64 <= U32 && FullTo(base)
      ensures !found ==> FullTo(base + 64)
      ensures found ==> r <= numBits && r !in Contents() && FullTo(if r == 0 then numBits else r - 1)
    {
      for j := 0 to 64
        invariant FullTo(base + j)
      {
        var bit := Wrap(base + j + 1);
        var isSet := IsSet(bit);
        if !isSet {
          if bit > numBits { return true, 0; }
          return true, bit;
        }
      }
      return false, 0;
    }

    /** The text of the bitmap. The source's uint32 loop counter wraps for ever at 2^32 - 1 bits. */
    method String() returns (text: string)
      requires Valid() && numBits < U32 - 1
      ensures var runs := AllRuns(Contents(), numBits);
              && text == "numBits: " + Decimal(numBits) + ", bits:" + "[" + RunsText(runs) + "] "
              && ReadRuns(RunsText(runs)) == Some(runs)
              && Canonical(runs) && forall k :: InRuns(runs, k) <==> k in Contents()
    {
      text := "numBits: " + Decimal(numBits) + ", bits:";
      text := text + "[";
      var list := RunList();
      text := text + list;
      text := text + "] ";
      AllRunsCover(Contents(), numBits);
      ReadRunsText(AllRuns(Contents(), numBits));
    }

    /** The loop of String, which appends the runs one token at a time. */
    method RunList() returns (text: string)
      requires Valid() && numBits < U32 - 1
      ensures text == RunsText(AllRuns(Contents(), numBits))
    {
      var onARunBit := numBits + 1;
      var onARun, needComma := false, false;
      text := "";
      ghost var bits := Contents();
      ghost var s := ScanTo(bits, 0);
      for i := 1 to numBits + 1
        invariant s == ScanTo(bits, i - 1) && onARun == s.onARun && (onARun ==> onARunBit == s.from)
        invariant needComma == (!onARun && s.runs != [])
        invariant text == Printed(s)
      {
        var isSet := IsSet(i);
        if isSet {
          if !onARun {
            PrintStart(s.runs, i);
            if needComma { text := text + ","; }
            text := text + Decimal(i);
            onARunBit := i;
            needComma := false;
          }
          onARun := true;
        } else {
          if onARun {
            PrintEnd(s.runs, s.from, i - 1);
            if onARunBit != i - 1 { text := text + ("-" + Decimal(i - 1)); }
            needComma := true;
          }
          onARunBit := numBits + 1;
          onARun := false;
        }
        s := ScanOne(s, bits, i);
      }
      if onARun {
        PrintEnd(s.runs, s.from, numBits);
        if onARunBit != numBits { text := text + ("-" + Decimal(numBits)); }
      }
    }
  }
}
