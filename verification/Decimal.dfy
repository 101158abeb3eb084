/** Decimal text of non-negative integers, as Go's `fmt.Sprintf("%d", n)` and `strconv.Itoa` write it,
    with the parser that undoes it. */
module Decimal {
  import opened Wrappers

  function Pow10(k: nat): (p: nat)
    ensures p >= 1
  {
    if k == 0 then 1 else 10 * Pow10(k - 1)
  }

  function Digit(d: nat): (c: char)
    requires d < 10
    ensures '0' <= c <= '9'
    ensures c as int == '0' as int + d
  {
    ('0' as int + d) as char
  }

  predicate IsDigit(c: char) {
    '0' <= c <= '9'
  }

  function DigitValue(c: char): (d: nat)
    requires IsDigit(c)
    ensures d < 10 && Digit(d) == c
  {
    c as int - '0' as int
  }

  function Format(n: nat): string {
    if n < 10 then [Digit(n)] else Format(n / 10) + [Digit(n % 10)]
  }

  predicate AllDigits(s: string) {
    forall i :: 0 <= i < |s| ==> IsDigit(s[i])
  }

  /** The number a string of digits denotes, most significant digit first. */
  function Value(s: string): nat
    requires AllDigits(s)
  {
    if s == [] then 0 else 10 * Value(s[..|s| - 1]) + DigitValue(s[|s| - 1])
  }

  function Parse(s: string): Option<nat> {
    if s != [] && AllDigits(s) then Some(Value(s)) else None
  }

  lemma {:induction false} FormatParses(n: nat)
    ensures Format(n) != [] && AllDigits(Format(n))
    ensures Value(Format(n)) == n
    ensures Parse(Format(n)) == Some(n)
  {
    var s := Format(n);
    if n < 10 {
      assert s[..0] == [];
    } else {
      FormatParses(n / 10);
      assert s[..|s| - 1] == Format(n / 10);
    }
  }

  lemma FormatInjective(m: nat, n: nat)
    requires Format(m) == Format(n)
    ensures m == n
  {
    FormatParses(m);
    FormatParses(n);
  }

  /** Ten digits, base ten, most significant first. */
  lemma FormatIsDecimal()
    ensures Format(0) == "0" && Format(9) == "9" && Format(10) == "10" && Format(8_072) == "8072"
  {
    assert Format(80) == "80";
    assert Format(807) == "807";
  }

  lemma {:induction false} FormatLength(n: nat, k: nat)
    requires k > 0 && n < Pow10(k)
    ensures 1 <= |Format(n)| <= k
  {
    if n >= 10 {
      FormatLength(n / 10, k - 1);
    }
  }

  lemma {:induction false} FormatLengthAtLeast(n: nat, k: nat)
    requires n >= Pow10(k)
    ensures |Format(n)| > k
  {
    if k > 0 && n >= 10 {
      FormatLengthAtLeast(n / 10, k - 1);
    }
  }

  /** Zero-padded text of exactly `width` digits. */
  function Padded(n: nat, width: nat): (s: string)
    requires n < Pow10(width)
    ensures |s| == width && AllDigits(s)
  {
    if width == 0 then [] else Padded(n / 10, width - 1) + [Digit(n % 10)]
  }

  lemma {:induction false} PaddedValue(n: nat, width: nat)
    requires n < Pow10(width)
    ensures Value(Padded(n, width)) == n
  {
    if width > 0 {
      var s := Padded(n, width);
      PaddedValue(n / 10, width - 1);
      assert s[..|s| - 1] == Padded(n / 10, width - 1);
    }
  }

  lemma SplitDigit(v: nat, d: nat, bound: nat)
    requires v < bound && d < 10
    ensures 10 * v + d < 10 * bound
    ensures (10 * v + d) / 10 == v && (10 * v + d) % 10 == d
  {
  }

  lemma PaddedStep(v: nat, c: char, width: nat)
    requires v < Pow10(width) && '0' <= c <= '9'
    ensures 10 * v + DigitValue(c) < Pow10(width + 1)
    ensures Padded(10 * v + DigitValue(c), width + 1) == Padded(v, width) + [c]
  {
    SplitDigit(v, DigitValue(c), Pow10(width));
  }

  lemma {:induction false} ValueBound(s: string)
    requires AllDigits(s)
    ensures Value(s) < Pow10(|s|)
    ensures Padded(Value(s), |s|) == s
  {
    if s != [] {
      var front, c := s[..|s| - 1], s[|s| - 1];
      ValueBound(front);
      PaddedStep(Value(front), c, |front|);
      assert s == front + [c];
    }
  }
}
