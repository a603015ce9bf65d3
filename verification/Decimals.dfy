/** Decimal numerals: their unbounded value, their canonical text and how they compare. */
module Decimals {
  import opened Orders

  predicate IsDigit(c: char) {
    '0' <= c <= '9'
  }

  predicate AllDigits(s: string) {
    forall i :: 0 <= i < |s| ==> IsDigit(s[i])
  }

  function DigitValue(c: char): (d: nat)
    requires IsDigit(c)
    ensures d < 10
  {
    c as int - '0' as int
  }

  function DigitChar(d: nat): (c: char)
    requires d < 10
    ensures IsDigit(c) && DigitValue(c) == d
  {
    ('0' as int + d) as char
  }

  function Pow10(k: nat): (p: nat)
    ensures p > 0
  {
    if k == 0 then 1 else 10 * Pow10(k - 1)
  }

  /** The unbounded value of a digit string; the empty string is 0. */
  function Value(s: string): (v: nat)
    requires AllDigits(s)
    ensures v < Pow10(|s|)
  {
    if s == "" then 0 else 10 * Value(s[..|s| - 1]) + DigitValue(s[|s| - 1])
  }

  /** Canonical decimal text, without leading zeros. */
  function Decimal(n: nat): (s: string)
    ensures s != "" && AllDigits(s)
  {
    if n < 10 then [DigitChar(n)] else Decimal(n / 10) + [DigitChar(n % 10)]
  }

  lemma ValueAppend(s: string, c: char)
    requires AllDigits(s) && IsDigit(c)
    ensures AllDigits(s + [c])
    ensures Value(s + [c]) == 10 * Value(s) + DigitValue(c)
  {
    assert (s + [c])[..|s|] == s;
  }

  lemma {:induction false} ValueOfDecimal(n: nat)
    ensures Value(Decimal(n)) == n
  {
    if n >= 10 {
      ValueOfDecimal(n / 10);
      ValueAppend(Decimal(n / 10), DigitChar(n % 10));
    }
  }

  lemma {:induction false} DecimalLength(n: nat, k: nat)
    requires k > 0 && n < Pow10(k)
    ensures |Decimal(n)| <= k
  {
    if n >= 10 {
      assert Pow10(k) == 10 * Pow10(k - 1);
      DecimalLength(n / 10, k - 1);
    }
  }

  /** Go's strings.TrimLeft(s, "0"). */
  function TrimZeros(s: string): (t: string)
    ensures |t| <= |s| && t == s[|s| - |t|..]
    ensures t == "" || t[0] != '0'
  {
    if s == "" || s[0] != '0' then s else TrimZeros(s[1..])
  }

  lemma {:induction false} LeadingZeroValue(s: string)
    requires AllDigits(s)
    ensures AllDigits(['0'] + s) && Value(['0'] + s) == Value(s)
  {
    if s != "" {
      var t := s[..|s| - 1];
      LeadingZeroValue(t);
      assert (['0'] + s)[..|s|] == ['0'] + t;
    }
  }

  lemma {:induction false} TrimZerosValue(s: string)
    requires AllDigits(s)
    ensures AllDigits(TrimZeros(s)) && Value(TrimZeros(s)) == Value(s)
  {
    if s != "" && s[0] == '0' {
      TrimZerosValue(s[1..]);
      LeadingZeroValue(s[1..]);
      assert s == ['0'] + s[1..];
    }
  }

  lemma {:induction false} Pow10Grows(j: nat, k: nat)
    requires j <= k
    ensures Pow10(j) <= Pow10(k)
  {
    if j < k {
      Pow10Grows(j, k - 1);
    }
  }

  lemma {:induction false} LexAppend(a: string, b: string, x: char, y: char)
    requires |a| == |b|
    ensures CompareStrings(a + [x], b + [y])
         == if CompareStrings(a, b) != 0 then CompareStrings(a, b) else CompareChar(x, y)
  {
    if a == "" {
      assert a + [x] == [x] && b + [y] == [y];
    } else {
      LexAppend(a[1..], b[1..], x, y);
      assert (a + [x])[1..] == a[1..] + [x] && (b + [y])[1..] == b[1..] + [y];
    }
  }

  /** Digit strings of equal length compare lexically exactly as their values do. */
  lemma {:induction false} EqualLengthOrder(a: string, b: string)
    requires AllDigits(a) && AllDigits(b) && |a| == |b|
    ensures CompareStrings(a, b) == Sign(Value(a) - Value(b))
  {
    if a != "" {
      var k := |a| - 1;
      EqualLengthOrder(a[..k], b[..k]);
      LexAppend(a[..k], b[..k], a[k], b[k]);
      assert a == a[..k] + [a[k]] && b == b[..k] + [b[k]];
    }
  }

  lemma {:induction false} ValueAtLeast(s: string)
    requires AllDigits(s) && s != "" && s[0] != '0'
    ensures Value(s) >= Pow10(|s| - 1)
  {
    if |s| > 1 {
      ValueAtLeast(s[..|s| - 1]);
    }
  }

  /** A shorter numeral without leading zeros is the smaller number. */
  lemma ShorterIsSmaller(a: string, b: string)
    requires AllDigits(a) && AllDigits(b) && |a| < |b| && b[0] != '0'
    ensures Value(a) < Value(b)
  {
    ValueAtLeast(b);
    Pow10Grows(|a|, |b| - 1);
  }

  /** Compares two decimal strings as integers (empty is 0), ignoring leading zeros. */
  function CompareBigInt(a: string, b: string): (c: int) {
    var a, b := TrimZeros(a), TrimZeros(b);
    if a == "" && b == "" then 0
    else if a == "" then -1
    else if b == "" then 1
    else if |a| != |b| then (if |a| < |b| then -1 else 1)
    else CompareStrings(a, b)
  }

  /** CompareBigInt is the sign of the difference of the unbounded values. */
  lemma CompareBigIntIsNumeric(a: string, b: string)
    requires AllDigits(a) && AllDigits(b)
    ensures CompareBigInt(a, b) == Sign(Value(a) - Value(b))
  {
    TrimZerosValue(a);
    TrimZerosValue(b);
    var s, t := TrimZeros(a), TrimZeros(b);
    if |s| < |t| {
      ShorterIsSmaller(s, t);
    } else if |t| < |s| {
      ShorterIsSmaller(t, s);
    } else {
      EqualLengthOrder(s, t);
    }
  }
}
