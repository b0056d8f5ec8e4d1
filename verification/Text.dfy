/** Text the controller builds: decimal numbers, generated names and Go's string order. */
module Text {

  predicate IsDigit(c: char) { '0' <= c <= '9' }

  function Digit(n: nat): (c: char)
    requires n < 10
    ensures IsDigit(c) && DigitValue(c) == n
  {
    '0' + n as char
  }

  function DigitValue(c: char): nat
    requires IsDigit(c)
  {
    (c - '0') as nat
  }

  /** What the verb %d prints for an unsigned number. */
  function Decimal(n: nat): (s: string)
    ensures s != [] && AllDigits(s)
  {
    if n < 10 then [Digit(n)] else Decimal(n / 10) + [Digit(n % 10)]
  }

  predicate AllDigits(s: string) { forall i | 0 <= i < |s| :: IsDigit(s[i]) }

  /** The number written by a string of digits. */
  function Value(s: string): nat
    requires AllDigits(s)
  {
    if s == [] then 0 else Value(s[..|s| - 1]) * 10 + DigitValue(s[|s| - 1])
  }

  lemma {:induction false} ValueOfDecimal(n: nat)
    ensures Value(Decimal(n)) == n
  {
    if n >= 10 {
      ValueOfDecimal(n / 10);
      assert Decimal(n)[..|Decimal(n)| - 1] == Decimal(n / 10);
    } else {
      assert Decimal(n)[..0] == [];
    }
  }

  /** The length of the longest prefix of digits. */
  function DigitSpan(s: string): (k: nat)
    ensures k <= |s| && AllDigits(s[..k])
  {
    if s == [] || !IsDigit(s[0]) then 0 else 1 + DigitSpan(s[1..])
  }

  /** A number ends where the first character that is no digit stands. */
  ghost predicate Ends(rest: string) { rest == [] || !IsDigit(rest[0]) }

  lemma {:induction false} SpanOfDigits(digits: string, rest: string)
    requires AllDigits(digits) && Ends(rest)
    ensures DigitSpan(digits + rest) == |digits|
  {
    if digits == [] {
      assert digits + rest == rest;
    } else {
      assert (digits + rest)[1..] == digits[1..] + rest;
      SpanOfDigits(digits[1..], rest);
    }
  }

  /** A printed number followed by a non-digit can be read back. */
  lemma ReadDecimal(n: nat, rest: string)
    requires Ends(rest)
    ensures DigitSpan(Decimal(n) + rest) == |Decimal(n)|
    ensures (Decimal(n) + rest)[..|Decimal(n)|] == Decimal(n)
    ensures (Decimal(n) + rest)[|Decimal(n)|..] == rest
    ensures Value(Decimal(n)) == n
  {
    SpanOfDigits(Decimal(n), rest);
    ValueOfDecimal(n);
  }

  /** Two texts that start with a printed number agree only if the numbers and the tails do. */
  lemma DecimalPrefixInjective(m: nat, n: nat, x: string, y: string)
    requires Ends(x) && Ends(y)
    requires Decimal(m) + x == Decimal(n) + y
    ensures m == n && x == y
  {
    ReadDecimal(m, x);
    ReadDecimal(n, y);
  }

  lemma CommonPrefix(p: string, x: string, y: string)
    requires p + x == p + y
    ensures x == y
  {
    assert x == (p + x)[|p|..];
    assert y == (p + y)[|p|..];
  }

  /** A character that stands in neither of two ends splits a text before them in one way. */
  lemma LastSplit(x: string, y: string, b: string, c: string, sep: char)
    requires x + [sep] + b == y + [sep] + c && sep !in b && sep !in c
    ensures x == y && b == c
  {
    var s := x + [sep] + b;
    assert s[|x|] == sep && s[|y|] == sep;
    assert forall i | |x| < i < |s| :: s[i] == b[i - |x| - 1];
    assert forall i | |y| < i < |s| :: s[i] == c[i - |y| - 1];
    assert |x| == |y|;
    assert x == s[..|x|] && y == s[..|y|];
    CommonPrefix(x + [sep], b, c);
  }

  lemma CommonSuffix(x: string, y: string, p: string)
    requires x + p == y + p
    ensures x == y
  {
    assert |x| == |y|;
    assert x == (x + p)[..|x|];
    assert y == (y + p)[..|y|];
  }

  /** A text that ends in a separator and a printed number can be split there. */
  lemma DecimalSuffixInjective(x: string, y: string, c: char, m: nat, n: nat)
    requires !IsDigit(c) && x + [c] + Decimal(m) == y + [c] + Decimal(n)
    ensures x == y && m == n
  {
    var s := x + [c] + Decimal(m);
    assert s[|x|] == c && s[|y|] == c;
    assert forall i | |x| < i < |s| :: IsDigit(s[i]);
    assert forall i | |y| < i < |s| :: IsDigit(s[i]);
    assert |x| == |y|;
    assert x == s[..|x|] && y == s[..|y|];
    assert Decimal(m) == s[|x| + 1..] && Decimal(n) == s[|y| + 1..];
    ValueOfDecimal(m);
    ValueOfDecimal(n);
  }

  /** Go's strict order on strings: lexicographic by character. */
  predicate Less(a: string, b: string)
  {
    b != [] && (a == [] || a[0] < b[0] || (a[0] == b[0] && Less(a[1..], b[1..])))
  }

  predicate LessEq(a: string, b: string) { a == b || Less(a, b) }

  lemma {:induction false} LessIrreflexive(a: string)
    ensures !Less(a, a)
  {
    if a != [] { LessIrreflexive(a[1..]); }
  }

  lemma {:induction false} LessTransitive(a: string, b: string, c: string)
    requires Less(a, b) && Less(b, c)
    ensures Less(a, c)
  {
    if a != [] && a[0] == b[0] == c[0] { LessTransitive(a[1..], b[1..], c[1..]); }
  }

  lemma {:induction false} LessTotal(a: string, b: string)
    ensures Less(a, b) || a == b || Less(b, a)
  {
    if a != [] && b != [] && a[0] == b[0] {
      LessTotal(a[1..], b[1..]);
      if a[1..] == b[1..] { assert a == [a[0]] + a[1..] == b; }
    }
  }
}
