/** Reading Go durations in double precision, and the round trip with the printer. */
module Durations {
  import opened Options
  import opened Decimals
  import opened Versions
  import opened DurationText
  import opened Rounding

  /** A decimal number at the front of a text: its digits, how many stand behind the point, what follows. */
  datatype Amount = Amount(digits: string, places: nat, rest: string)

  function ReadAmount(s: string): (a: Amount)
    ensures AllDigits(a.digits) && |a.rest| + |a.digits| <= |s|
  {
    var whole, t := Run(IsDigit, s), Behind(IsDigit, s);
    if t != "" && t[0] == '.' then
      var digits := Run(IsDigit, t[1..]);
      Amount(whole + digits, |digits|, Behind(IsDigit, t[1..]))
    else Amount(whole, 0, t)
  }

  /** `v` in units of the `k`th place behind the point. */
  function Part(v: nat, k: nat): (x: real) { v as real / Pow10(k) as real }

  function AmountValue(a: Amount): (x: real)
    requires AllDigits(a.digits)
  {
    Part(Value(a.digits), a.places)
  }

  datatype Unit = Unit(ns: nat, size: nat)

  /** The unit at the front of a text, the longer names first. */
  function UnitAt(s: string): (u: Option<Unit>)
    ensures u.Some? ==> 0 < u.value.size <= |s|
  {
    if "ns" <= s then Some(Unit(1, 2))
    else if "us" <= s then Some(Unit(1000, 2))
    else if Micro <= s then Some(Unit(1000, 3))
    else if "ms" <= s then Some(Unit(1000000, 2))
    else if "s" <= s then Some(Unit(1000000000, 1))
    else if "m" <= s then Some(Unit(60000000000, 1))
    else if "h" <= s then Some(Unit(3600000000000, 1))
    else None
  }

  function InNanoseconds(x: real, unit: Unit): (ns: real) {
    Times(x, unit.ns as real)
  }

  /** The nanoseconds of one or more amounts with units, added to `total`. */
  function Sum(s: string, total: real): (r: Option<real>)
    decreases |s|
  {
    var a := ReadAmount(s);
    if a.digits == "" then None
    else
      match UnitAt(a.rest)
      case None => None
      case Some(u) =>
        var t, rest := total + InNanoseconds(AmountValue(a), u), a.rest[u.size..];
        if rest == "" then Some(t) else Sum(rest, t)
  }

  const Limit: real := 9223372036854775808.0

  /** A C conversion from floating point to integer. */
  function Truncated(x: real): (n: int) {
    if x < 0.0 then -((-x).Floor) else x.Floor
  }

  function Unsigned(s: string): (t: string) {
    if s != "" && (s[0] == '+' || s[0] == '-') then s[1..] else s
  }

  predicate Negative(s: string) { s != "" && s[0] == '-' }

  function Converted(negative: bool, t: real): (ns: Option<int>) {
    var x := if negative then -t else t;
    if x > Limit || x < -Limit then None else Some(Truncated(x))
  }

  /** The nanoseconds a text stands for, in exact arithmetic. */
  function Parsed(s: string): (ns: Option<int>) {
    match Sum(Unsigned(s), 0.0)
    case None => None
    case Some(t) => Converted(Negative(s), t)
  }

  /** The longest text whose amounts stay far from the smallest doubles. */
  const Precise: nat := 300

  function Smallest(): (x: real) { 1.0 / Pow10(307) as real }

  /**
   * What the parser may give in double precision: a text is refused for its form exactly if it has no
   * sum, and otherwise what is converted is at most three roundings per character from the sum.
   */
  ghost predicate Reads(s: string, ns: Option<int>) {
    match Sum(Unsigned(s), 0.0)
    case None => ns == None
    case Some(t) => |s| <= Precise ==> exists x :: Near(x, t, 3 * |s|) && ns == Converted(Negative(s), x)
  }

  // ---- the parser ----

  /**
   * A double operation with this exact result. Beyond the largest double the result stays a number
   * here where it is infinite in C, and is refused as out of range all the same.
   */
  method Rounded(x: real) returns (y: real)
    ensures Rounds(Smallest(), x, y)
  {
    hide Smallest;
    SomeRounding(x, if x >= 0.0 then x else 0.0);
    y :| Rounds(Smallest(), x, y);
  }

  lemma RunTake(s: string, i: nat)
    requires i <= |s| && (forall j :: 0 <= j < i ==> IsDigit(s[j])) && (i < |s| ==> !IsDigit(s[i]))
    ensures Run(IsDigit, s) == s[..i] && Behind(IsDigit, s) == s[i..]
  {
    RunUnique(IsDigit, s, i);
  }

  /** The digits before the point. */
  method ReadWhole(s: string) returns (value: real, i: nat)
    ensures i <= |s| && s[..i] == Run(IsDigit, s) && s[i..] == Behind(IsDigit, s)
    ensures |s| <= Precise ==> Near(value, Value(s[..i]) as real, 2 * i)
  {
    hide Near, Rounds, Smallest, Value;
    value, i := 0.0, 0;
    NearZero();
    while i < |s| && IsDigit(s[i])
      invariant i <= |s| && AllDigits(s[..i])
      invariant |s| <= Precise ==> Near(value, Value(s[..i]) as real, 2 * i)
    {
      assert s[..i] + [s[i]] == s[..i + 1];
      var ten := Rounded(Times(value, 10.0));
      var next := Rounded(ten + DigitValue(s[i]) as real);
      if |s| <= Precise { WholeStep(s[..i], s[i], value, ten, next, 2 * i); }
      value := next;
      i := i + 1;
    }
    assert forall j :: 0 <= j < i ==> IsDigit(s[..i][j]);
    RunTake(s, i);
  }

  /** The digits behind the point, added to the value of those before it. */
  method ReadPlaces(whole: string, s: string, start: real) returns (value: real, i: nat)
    requires AllDigits(whole) && (|whole| + 1 + |s| <= Precise ==> Near(start, Value(whole) as real, 2 * |whole|))
    ensures i <= |s| && s[..i] == Run(IsDigit, s) && s[i..] == Behind(IsDigit, s) && AllDigits(whole + s[..i])
    ensures |whole| + 1 + |s| <= Precise ==> Near(value, Part(Value(whole + s[..i]), i), 3 * (|whole| + i))
  {
    hide Near, Rounds, Smallest, Value, Pow10, Run, DigitValue, Part;
    value, i := start, 0;
    var tenth := Rounded(0.1);
    var frac := tenth;
    assert whole + s[..0] == whole;
    FirstPlace(whole, start, tenth);
    while i < |s| && IsDigit(s[i])
      invariant i <= |s| && AllDigits(s[..i]) && AllDigits(whole + s[..i])
      invariant |whole| + 1 + |s| <= Precise ==>
        Near(value, Part(Value(whole + s[..i]), i), 3 * (|whole| + i)) && Near(frac, Part(1, i + 1), 2 * i + 1)
    {
      assert whole + s[..i] + [s[i]] == whole + s[..i + 1];
      AppendDigit(whole + s[..i], s[i]);
      var term := Rounded(Times(frac, DigitValue(s[i]) as real));
      var next := Rounded(value + term);
      var smaller := Rounded(Times(frac, tenth));
      if |whole| + 1 + |s| <= Precise {
        PlaceStep(whole + s[..i], s[i], i, value, frac, term, next, 3 * (|whole| + i));
        FracStep(i, frac, tenth, smaller);
      }
      value, frac := next, smaller;
      i := i + 1;
    }
    assert forall j :: 0 <= j < i ==> IsDigit(s[..i][j]);
    RunTake(s, i);
  }

  method ReadNumber(p: string) returns (value: real, digits: nat, rest: string)
    ensures var a := ReadAmount(p);
      digits == |a.digits| && rest == a.rest && (|p| <= Precise ==> Near(value, AmountValue(a), 3 * digits))
  {
    hide Run, Value, Pow10, Part, Near;
    value, digits := ReadWhole(p);
    rest := p[digits..];
    if rest != "" && rest[0] == '.' {
      var whole, places := p[..digits], 0;
      value, places := ReadPlaces(whole, rest[1..], value);
      digits := digits + places;
      rest := rest[1..][places..];
    } else if |p| <= Precise {
      WholePart(Value(p[..digits]));
      NearWider(value, Value(p[..digits]) as real, 2 * digits, 3 * digits);
    }
  }

  method ParseDuration(s: string) returns (ns: Option<int>)
    ensures Reads(s, ns)
  {
    hide ReadAmount, AmountValue, UnitAt, Sum, InNanoseconds, Near, Rounds, Smallest, Coarse;
    var neg, p := false, s;
    if p != "" && (p[0] == '+' || p[0] == '-') {
      neg := p[0] == '-';
      p := p[1..];
    }
    EmptyHasNoSum();
    if p == "" { return None; }
    var total, more := 0.0, true;
    ghost var q, exact := p, 0.0;
    NearZero();
    while more
      invariant if more then Sum(q, 0.0) == Sum(p, exact) else Sum(q, 0.0) == Some(exact)
      invariant |p| <= |q|
      invariant |s| <= Precise ==> Near(total, exact, 3 * (|q| - |p|)) && Coarse(exact)
      decreases more, |p|
    {
      var value, digits, rest := ReadNumber(p);
      if digits == 0 {
        SumFails(p, exact);
        return None;
      }
      var unit := UnitAt(rest);
      if unit.None? {
        SumFails(p, exact);
        return None;
      }
      ghost var x := AmountValue(ReadAmount(p));
      SumStep(p, exact, x, rest, unit.value);
      var term := Rounded(Times(value, unit.value.ns as real));
      var sum := Rounded(total + term);
      if |s| <= Precise {
        TermStep(p, unit.value, value, term, total, exact, sum, |q| - |p|);
      }
      total, exact := sum, exact + InNanoseconds(x, unit.value);
      p := rest[unit.value.size..];
      more := p != "";
    }
    if |s| <= Precise { NearWider(total, exact, 3 * (|q| - |p|), 3 * |s|); }
    return Converted(neg, total);
  }

  // ---- one rounding after another ----

  lemma SomeRounding(x: real, y: real)
    requires y == if x >= 0.0 then x else 0.0
    ensures Rounds(Smallest(), x, y)
  {
    hide Smallest;
    assert x >= 0.0 ==> x * HalfUlp >= 0.0;
    SmallestIsPositive();
  }

  lemma SmallestIsPositive()
    ensures Smallest() > 0.0
  {
    hide Pow10;
  }

  lemma NearZero()
    ensures Value("") == 0 && Near(0.0, 0.0, 0) && Coarse(0.0)
  {
    Same(0.0);
  }

  /** A number that is no smaller than the last place of a text. */
  predicate Coarse(x: real) { x == 0.0 || x >= Part(1, 302) }

  /** A value near a coarse one is rounded as a normal number. */
  lemma NearlyRounded(x: real, exact: real, y: real, n: nat)
    requires Near(x, exact, n) && n <= 1000 && Coarse(exact) && Rounds(Smallest(), x, y)
    ensures Near(y, exact, n + 1)
  {
    hide Rounds, Pow10, Factor;
    hide Near, Smallest, Part;
    NearIsHalf(x, exact, n);
    LastPlaceIsLarge();
    NearRounded(Smallest(), x, exact, y, n);
  }

  lemma NearIsHalf(x: real, exact: real, n: nat)
    requires Near(x, exact, n) && n <= 1000
    ensures 2.0 * x >= exact >= 0.0 && (exact == 0.0 ==> x == 0.0)
  {
    hide Near, Times;
    NearIsClose(x, exact, n);
    NearIsPositive(x, exact, n);
    AtMostHalf(exact, Drift(n));
  }

  lemma AtMostHalf(x: real, e: real)
    requires x >= 0.0 && 0.0 <= e <= 0.5
    ensures 2.0 * Times(x, e) <= x && (x == 0.0 ==> Times(x, e) == 0.0)
  {
  }

  lemma LastPlaceIsLarge()
    ensures Part(1, 302) >= 2.0 * Smallest()
  {
    hide Pow10;
    PowStep(302);
    PowStep(303);
    PowStep(304);
    PowStep(305);
    PowStep(306);
    var p := Pow10(302) as real;
    Reciprocal(p, Pow10(307) as real);
  }

  lemma Reciprocal(p: real, q: real)
    requires p > 0.0 && q >= 2.0 * p
    ensures 1.0 / p >= 2.0 * (1.0 / q)
  {
    var a, b := 1.0 / p, 1.0 / q;
    assert a * p == 1.0 && b * q == 1.0;
    assert a * q >= a * (2.0 * p);
    assert (a - 2.0 * b) * q == a * q - 2.0 * (b * q);
  }

  lemma {:induction false} PartIsCoarse(v: nat, k: nat)
    requires k <= 302
    ensures Coarse(Part(v, k)) && Part(v, k) >= 0.0
  {
    hide Pow10;
    Pow10Grows(k, 302);
    var p, q := Pow10(k) as real, Pow10(302) as real;
    Quotients(v as real, p, q);
  }

  lemma Quotients(v: real, p: real, q: real)
    requires 0.0 < p <= q && v >= 0.0
    ensures v / p >= 0.0 && (v == 0.0 ==> v / p == 0.0) && (v >= 1.0 ==> v / p >= 1.0 / q)
  {
    var x, y := v / p, 1.0 / q;
    assert x * p == v && y * q == 1.0;
    assert x >= 0.0;
    assert x * q >= x * p;
    assert (x - y) * q == x * q - y * q;
  }

  lemma WholePart(v: nat)
    ensures Part(v, 0) == v as real
  {
  }

  lemma CoarseSum(x: real, y: real)
    requires Coarse(x) && Coarse(y) && x >= 0.0 && y >= 0.0
    ensures Coarse(x + y)
  {
    hide Part;
  }

  /** One more digit before the point. */
  lemma WholeStep(digits: string, c: char, value: real, ten: real, next: real, n: nat)
    requires AllDigits(digits) && IsDigit(c) && n <= 900 && Near(value, Value(digits) as real, n)
    requires Rounds(Smallest(), Times(value, 10.0), ten) && Rounds(Smallest(), ten + DigitValue(c) as real, next)
    ensures AllDigits(digits + [c]) && Near(next, Value(digits + [c]) as real, n + 2)
  {
    hide Near, Rounds, Smallest, Value, Part, Coarse, DigitValue, Pow10;
    var v, d := Value(digits), DigitValue(c);
    ValueAppend(digits, c);
    NearScaled(value, v as real, n, 10.0);
    WholePart(10 * v);
    PartIsCoarse(10 * v, 0);
    NearlyRounded(Times(value, 10.0), (10 * v) as real, ten, n);
    Widened(d as real, n + 1);
    NearSum(ten, (10 * v) as real, d as real, d as real, n + 1, n + 1);
    WholePart(10 * v + d);
    PartIsCoarse(10 * v + d, 0);
    NearlyRounded(ten + d as real, (10 * v + d) as real, next, n + 1);
  }

  lemma AppendDigit(digits: string, c: char)
    requires AllDigits(digits) && IsDigit(c)
    ensures AllDigits(digits + [c])
  {
  }

  lemma FirstPlace(whole: string, start: real, tenth: real)
    requires AllDigits(whole) && Rounds(Smallest(), 0.1, tenth)
    ensures Near(start, Value(whole) as real, 2 * |whole|) ==> Near(start, Part(Value(whole), 0), 3 * (|whole| + 0))
    ensures Near(tenth, Part(1, 1), 1)
  {
    hide Near, Rounds, Smallest, Value, Coarse;
    WholePart(Value(whole));
    if Near(start, Value(whole) as real, 2 * |whole|) { NearWider(start, Value(whole) as real, 2 * |whole|, 3 * (|whole| + 0)); }
    TenthIs();
    Same(0.1);
    PartIsCoarse(1, 1);
    NearlyRounded(0.1, Part(1, 1), tenth, 0);
  }

  lemma TenthIs()
    ensures Part(1, 1) == 0.1
  {
    assert Pow10(1) == 10;
  }

  /** The next place of a number. */
  lemma PartStep(v: nat, d: nat, k: nat)
    ensures Part(10 * v + d, k + 1) == Part(v, k) + Times(Part(1, k + 1), d as real)
    ensures Times(Part(1, k), 0.1) == Part(1, k + 1)
  {
    hide Pow10;
    PowStep(k);
    var p := Pow10(k) as real;
    var x, y := v as real / p, 1.0 / (10.0 * p);
    assert x * p == v as real && y * (10.0 * p) == 1.0;
    assert (x + y * d as real) * (10.0 * p) == 10.0 * (x * p) + d as real * (y * (10.0 * p));
    Divided(x + y * d as real, 10.0 * p, (10 * v + d) as real);
    var z := 1.0 / p;
    assert z * p == 1.0;
    assert (z * 0.1) * (10.0 * p) == z * p;
    Divided(z * 0.1, 10.0 * p, 1.0);
  }

  lemma Divided(x: real, p: real, v: real)
    requires p > 0.0 && x * p == v
    ensures x == v / p
  {
  }

  lemma PartScaled(d: nat, k: nat)
    ensures Times(Part(1, k), d as real) == Part(d, k)
  {
    hide Pow10;
    var p := Pow10(k) as real;
    var y := 1.0 / p;
    assert y * p == 1.0;
    assert (y * d as real) * p == d as real * (y * p);
    Divided(y * d as real, p, d as real);
  }

  /** One more digit behind the point. */
  lemma PlaceStep(digits: string, c: char, i: nat, value: real, frac: real, term: real, next: real, n: nat)
    requires AllDigits(digits) && IsDigit(c) && i < 301 && 2 * i <= n <= 900
    requires Near(value, Part(Value(digits), i), n) && Near(frac, Part(1, i + 1), 2 * i + 1)
    requires Rounds(Smallest(), Times(frac, DigitValue(c) as real), term) && Rounds(Smallest(), value + term, next)
    ensures AllDigits(digits + [c]) && Near(next, Part(Value(digits + [c]), i + 1), n + 3)
  {
    hide Near, Rounds, Smallest, Value, Part, Coarse, DigitValue, Pow10, Times;
    var v, d := Value(digits), DigitValue(c);
    ValueAppend(digits, c);
    PartStep(v, d, i);
    PartScaled(d, i + 1);
    NearScaled(frac, Part(1, i + 1), 2 * i + 1, d as real);
    PartIsCoarse(d, i + 1);
    NearlyRounded(Times(frac, d as real), Part(d, i + 1), term, 2 * i + 1);
    NearWider(term, Part(d, i + 1), 2 * i + 2, n + 2);
    NearWider(value, Part(v, i), n, n + 2);
    NearSum(value, Part(v, i), term, Part(d, i + 1), n + 2, n + 2);
    PartIsCoarse(10 * v + d, i + 1);
    NearlyRounded(value + term, Part(10 * v + d, i + 1), next, n + 2);
  }

  lemma FracStep(i: nat, frac: real, tenth: real, smaller: real)
    requires i < 300 && Near(frac, Part(1, i + 1), 2 * i + 1) && Near(tenth, Part(1, 1), 1)
    requires Rounds(Smallest(), Times(frac, tenth), smaller)
    ensures Near(smaller, Part(1, i + 2), 2 * i + 3)
  {
    hide Near, Rounds, Smallest, Part, Coarse, Pow10, Times;
    NearProduct(frac, Part(1, i + 1), tenth, Part(1, 1), 2 * i + 1, 1);
    TenthIs();
    PartStep(1, 0, i + 1);
    PartIsCoarse(1, i + 2);
    NearlyRounded(Times(frac, tenth), Part(1, i + 2), smaller, 2 * i + 2);
  }

  /** One more amount with its unit. */
  lemma TermStep(p: string, unit: Unit, value: real, term: real, total: real, exact: real, sum: real, done: nat)
    requires var a := ReadAmount(p);
      && UnitAt(a.rest) == Some(unit) && done + |p| <= Precise && Near(value, AmountValue(a), 3 * |a.digits|)
    requires Near(total, exact, 3 * done) && Coarse(exact)
    requires Rounds(Smallest(), Times(value, unit.ns as real), term) && Rounds(Smallest(), total + term, sum)
    ensures var a := ReadAmount(p);
      var exact' := exact + InNanoseconds(AmountValue(a), unit);
      Near(sum, exact', 3 * (done + |p| - |a.rest[unit.size..]|)) && Coarse(exact')
  {
    hide Near, Rounds, Smallest, Part, Coarse, Pow10, Times, ReadAmount, UnitAt, Value;
    var a := ReadAmount(p);
    var n, e := 3 * |a.digits|, InNanoseconds(AmountValue(a), unit);
    AmountIsShort(p);
    UnitsArePositive(a.rest);
    UnitIsCoarse(a, unit);
    NearScaled(value, AmountValue(a), n, unit.ns as real);
    NearlyRounded(Times(value, unit.ns as real), e, term, n);
    var m := 3 * (done + |p| - |a.rest[unit.size..]|) - 1;
    NearWider(term, e, n + 1, m);
    NearWider(total, exact, 3 * done, m);
    NearSum(total, exact, term, e, m, m);
    NearIsPositive(total, exact, m);
    NearIsPositive(term, e, m);
    CoarseSum(exact, e);
    NearlyRounded(total + term, exact + e, sum, m);
  }

  lemma AmountIsShort(p: string)
    ensures ReadAmount(p).places <= |p|
  {
    hide Run, Behind;
  }

  lemma UnitsArePositive(s: string)
    ensures UnitAt(s).Some? ==> UnitAt(s).value.ns >= 1
  {
  }

  lemma UnitIsCoarse(a: Amount, unit: Unit)
    requires AllDigits(a.digits) && a.places <= 302 && unit.ns >= 1
    ensures Coarse(InNanoseconds(AmountValue(a), unit))
  {
    hide Pow10, Value, Part;
    PartIsCoarse(Value(a.digits), a.places);
    AtLeast(AmountValue(a), unit.ns as real);
  }

  lemma AtLeast(x: real, c: real)
    requires x >= 0.0 && c >= 1.0
    ensures Times(x, c) >= x && (x == 0.0 ==> Times(x, c) == 0.0)
  {
  }

  lemma PowStep(i: nat)
    ensures Pow10(i + 1) as real == 10.0 * Pow10(i) as real
  {
  }

  lemma PowZero()
    ensures Pow10(0) == 1
  {
  }

  lemma SumFails(s: string, total: real)
    requires ReadAmount(s).digits == "" || UnitAt(ReadAmount(s).rest).None?
    ensures Sum(s, total) == None
  {
  }

  /** One amount and its unit. */
  lemma SumStep(s: string, total: real, x: real, rest: string, unit: Unit)
    requires var a := ReadAmount(s); a.digits != "" && x == AmountValue(a) && rest == a.rest && UnitAt(rest) == Some(unit)
    ensures var t, later := total + InNanoseconds(x, unit), rest[unit.size..];
      Sum(s, total) == if later == "" then Some(t) else Sum(later, t)
  {
    hide ReadAmount, AmountValue, UnitAt, InNanoseconds;
  }

  lemma EmptyHasNoSum()
    ensures Sum("", 0.0) == None
  {
  }

  // ---- the value of a printed amount ----

  /** The number the lowest `k` digits of `v` make. */
  function Low(v: nat, k: nat): (n: nat) {
    if k == 0 then 0 else DigitAt(v, k - 1) * Pow10(k - 1) + Low(v, k - 1)
  }

  lemma {:induction false} LowSplit(v: nat, k: nat)
    ensures v == Shift(v, k) * Pow10(k) + Low(v, k)
  {
    if k > 0 {
      LowSplit(v, k - 1);
      var high, p := Shift(v, k - 1), Pow10(k - 1);
      assert high == 10 * Shift(v, k) + DigitAt(v, k - 1);
      Distribute(Shift(v, k), 10, DigitAt(v, k - 1), p);
    }
  }

  lemma {:induction false} PowAdd(a: nat, b: nat)
    ensures Pow10(a) * Pow10(b) == Pow10(a + b)
  {
    if a > 0 {
      PowAdd(a - 1, b);
      assert Pow10(a) * Pow10(b) == 10 * (Pow10(a - 1) * Pow10(b));
    }
  }

  lemma {:induction false} ValueConcat(s: string, t: string)
    requires AllDigits(s) && AllDigits(t)
    ensures AllDigits(s + t) && Value(s + t) == Value(s) * Pow10(|t|) + Value(t)
  {
    hide Value, Pow10, DigitValue;
    if t == "" {
      assert s + t == s;
      EmptyValue();
      PowZero();
      assert Value(s) * 1 == Value(s);
    } else {
      var k := |t| - 1;
      var init := t[..k];
      ValueConcat(s, init);
      ValueAppend(init, t[k]);
      ValueAppend(s + init, t[k]);
      assert init + [t[k]] == t && s + init + [t[k]] == s + t;
      NextPower(Value(s), k);
    }
  }

  lemma NextPower(a: nat, k: nat)
    ensures 10 * (a * Pow10(k)) == a * Pow10(k + 1)
  {
    hide Pow10;
    var p := Pow10(k);
    assert Pow10(k + 1) == 10 * p by { PowerStep(k); }
    assert a * (10 * p) == 10 * (a * p);
  }

  lemma PowerStep(k: nat)
    ensures Pow10(k + 1) == 10 * Pow10(k)
  {
  }

  /** Dropping trailing zeros keeps the fraction: the digits, filled up again, are the low digits of `v`. */
  lemma {:induction false} FractionValue(v: nat, k: nat)
    ensures Value(Fraction(v, k)) * Pow10(k - |Fraction(v, k)|) == Low(v, k)
  {
    hide Value, Pow10, DigitAt;
    if k == 0 {
      EmptyValue();
    } else {
      FractionValue(v, k - 1);
      var d, t := DigitAt(v, k - 1), Fraction(v, k - 1);
      var gap := k - 1 - |t|;
      if t == "" && d == 0 {
        EmptyValue();
      } else {
        var c := [DigitChar(d)];
        ValueConcat(c, t);
        OneDigit(d);
        PowAdd(|t|, gap);
        Distribute(d, Pow10(|t|), Value(t), Pow10(gap));
      }
    }
  }

  lemma EmptyValue()
    ensures Value("") == 0
  {
  }

  lemma OneDigit(d: nat)
    requires d < 10
    ensures Value([DigitChar(d)]) == d
  {
    assert [DigitChar(d)][..0] == "";
  }

  /** The amount a number and its fraction stand for, in units of the fraction's last place. */
  lemma AmountScaled(n: nat, v: nat, k: nat, rest: string)
    ensures var f := Fraction(v, k);
      && AllDigits(Decimal(n) + f)
      && AmountValue(Amount(Decimal(n) + f, |f|, rest)) * Pow10(k) as real == (n * Pow10(k) + Low(v, k)) as real
  {
    hide Value, Pow10, Decimal, Fraction, Low;
    var f := Fraction(v, k);
    ValueConcat(Decimal(n), f);
    ValueOfDecimal(n);
    FractionValue(v, k);
    var p, q := Pow10(|f|), Pow10(k - |f|);
    PowAdd(|f|, k - |f|);
    var num := Value(Decimal(n) + f);
    assert num * q == n * (p * q) + Value(f) * q by { Distribute(n, p, Value(f), q); }
    ScaledQuotient(num, p, q);
  }

  lemma Distribute(n: int, p: int, v: int, q: int)
    ensures (n * p + v) * q == n * (p * q) + v * q
  {
  }

  lemma ScaledQuotient(num: nat, p: nat, q: nat)
    requires p > 0
    ensures (num as real / p as real) * (p * q) as real == (num * q) as real
  {
    var x := num as real / p as real;
    assert x * p as real == num as real;
    ProductAsReal(p, q);
    ProductAsReal(num, q);
    assert x * (p as real * q as real) == (x * p as real) * q as real;
  }

  lemma {:induction false} ProductAsReal(a: nat, b: nat)
    ensures (a * b) as real == a as real * b as real
  {
    if a > 0 {
      ProductAsReal(a - 1, b);
      assert a * b == (a - 1) * b + b;
      assert a as real == (a - 1) as real + 1.0;
      assert ((a - 1) as real + 1.0) * b as real == (a - 1) as real * b as real + b as real;
    }
  }

  // ---- reading printed text ----

  lemma RunOf(a: string, b: string)
    requires AllDigits(a) && (b == "" || !IsDigit(b[0]))
    ensures Run(IsDigit, a + b) == a && Behind(IsDigit, a + b) == b
  {
    RunUnique(IsDigit, a + b, |a|);
    assert (a + b)[..|a|] == a && (a + b)[|a|..] == b;
  }

  /** A printed amount is read back as its digits, up to the unit behind it. */
  lemma ReadPrinted(n: nat, v: nat, k: nat, after: string)
    requires after != "" && !IsDigit(after[0]) && after[0] != '.'
    ensures var f := Fraction(v, k);
      ReadAmount(Decimal(n) + FractionText(v, k) + after) == Amount(Decimal(n) + f, |f|, after)
  {
    hide Run, Behind, Decimal, Fraction;
    var f := Fraction(v, k);
    if f == "" {
      assert Decimal(n) + FractionText(v, k) + after == Decimal(n) + after;
      RunOf(Decimal(n), after);
      assert Decimal(n) + f == Decimal(n);
    } else {
      var t := "." + (f + after);
      assert Decimal(n) + FractionText(v, k) + after == Decimal(n) + t;
      RunOf(Decimal(n), t);
      assert t[1..] == f + after;
      RunOf(f, after);
    }
  }

  /** A printed amount adds its value to the total; `places` is the unit in terms of the last place. */
  lemma SumPrinted(n: nat, v: nat, k: nat, unit: Unit, name: string, later: string, total: real)
    requires name != "" && !IsDigit(name[0]) && name[0] != '.'
    requires UnitAt(name + later) == Some(unit) && unit.size == |name|
    requires unit.ns == Pow10(k) || (k == 0 && v == 0)
    ensures var t := total + ((n * unit.ns) as real + if unit.ns == Pow10(k) then Low(v, k) as real else 0.0);
      Sum(Decimal(n) + FractionText(v, k) + (name + later), total) == if later == "" then Some(t) else Sum(later, t)
  {
    hide Sum, ReadAmount, AmountValue, UnitAt, InNanoseconds, Decimal, Fraction, Low, FractionText, Pow10;
    var s, a := Decimal(n) + FractionText(v, k) + (name + later), Amount(Decimal(n) + Fraction(v, k), |Fraction(v, k)|, name + later);
    ReadPrinted(n, v, k, name + later);
    AmountScaled(n, v, k, name + later);
    assert a.digits != "";
    SumStep(s, total, AmountValue(a), name + later, unit);
    assert (name + later)[unit.size..] == later;
    if unit.ns == Pow10(k) {
      UnitIs(AmountValue(a), Pow10(k), unit, n * unit.ns + Low(v, k));
    } else {
      NoLow(n, v);
      WholeUnits(AmountValue(a), n, unit);
    }
  }

  lemma UnitIs(x: real, p: nat, unit: Unit, n: nat)
    requires unit.ns == p && x * p as real == n as real
    ensures InNanoseconds(x, unit) == n as real
  {
  }

  lemma NoLow(n: nat, v: nat)
    ensures Low(v, 0) == 0 && Pow10(0) == 1
  {
  }

  lemma WholeUnits(x: real, n: nat, unit: Unit)
    requires x * 1.0 == n as real
    ensures InNanoseconds(x, unit) == (n * unit.ns) as real
  {
    ProductAsReal(n, unit.ns);
  }

  lemma NoFractionText()
    ensures FractionText(0, 0) == ""
  {
  }

  /** The unit names as the printer leaves them, before a digit or the end. */
  lemma UnitNames(later: string)
    requires later == "" || IsDigit(later[0])
    ensures UnitAt("ns" + later) == Some(Unit(1, 2))
    ensures UnitAt(Micro + later) == Some(Unit(1000, 3))
    ensures UnitAt("ms" + later) == Some(Unit(1000000, 2))
    ensures UnitAt("s" + later) == Some(Unit(1000000000, 1))
    ensures UnitAt("m" + later) == Some(Unit(60000000000, 1))
    ensures UnitAt("h" + later) == Some(Unit(3600000000000, 1))
  {
    assert ("ns" + later)[0] == 'n';
    assert (Micro + later)[0] == '\U{C2}' && (Micro + later)[1] == '\U{B5}' && (Micro + later)[2] == 's';
    assert ("ms" + later)[0] == 'm' && ("ms" + later)[1] == 's';
    assert ("s" + later)[0] == 's' && ("m" + later)[0] == 'm' && ("h" + later)[0] == 'h';
    assert later != "" ==> ("s" + later)[1] == later[0] && ("m" + later)[1] == later[0] && ("h" + later)[1] == later[0];
  }

  lemma Powers()
    ensures Pow10(0) == 1 && Pow10(3) == 1000 && Pow10(6) == 1000000 && Pow10(9) == 1000000000
  {
    assert Pow10(3) == 1000;
    assert Pow10(5) == 100000;
    assert Pow10(7) == 10000000;
  }

  /** A single amount in a unit that is a power of ten. */
  lemma SumOne(u: nat, k: nat, unit: Unit, name: string)
    requires name != "" && !IsDigit(name[0]) && name[0] != '.' && UnitAt(name) == Some(unit) && unit.size == |name|
    requires unit.ns == Pow10(k)
    ensures Sum(Decimal(Shift(u, k)) + FractionText(u, k) + name, 0.0) == Some(u as real)
  {
    hide Sum, UnitAt, Decimal, FractionText, Pow10, Shift, Low;
    assert name + "" == name;
    SumPrinted(Shift(u, k), u, k, unit, name, "", 0.0);
    LowSplit(u, k);
  }

  /** Whole minutes or hours in front of the rest. */
  lemma SumWhole(n: nat, unit: Unit, name: string, later: string, total: real)
    requires name != "" && !IsDigit(name[0]) && name[0] != '.' && UnitAt(name + later) == Some(unit) && unit.size == |name|
    requires later != "" && unit.ns != 1
    ensures Sum(Decimal(n) + name + later, total) == Sum(later, total + (n * unit.ns) as real)
  {
    hide Sum, UnitAt, Decimal, FractionText;
    NoFractionText();
    assert Decimal(n) + "" + (name + later) == Decimal(n) + name + later;
    SumPrinted(n, 0, 0, unit, name, later, total);
  }

  /** Seconds with their fraction, at the end. */
  lemma SumSeconds(u: nat, total: real)
    ensures var s := u / 1000000000;
      Sum(Seconds(s) + FractionText(u, 9) + "s", total) == Some(total + (s % 60 * 1000000000 + u % 1000000000) as real)
  {
    hide Sum, UnitAt, Decimal, FractionText, Pow10, Shift, Low;
    var s := u / 1000000000;
    UnitNames("");
    Powers();
    ShiftIs(u);
    LowSplit(u, 9);
    assert "s" + "" == "s";
    SumPrinted(s % 60, u, 9, Unit(1000000000, 1), "s", "", total);
  }

  lemma StartsWithDigit(n: nat, t: string)
    ensures IsDigit((Decimal(n) + t)[0])
  {
    hide Decimal;
    assert (Decimal(n) + t)[0] == Decimal(n)[0];
  }

  lemma SumMinutes(u: nat, total: real)
    ensures var s := u / 1000000000;
      Sum(Decimal(s / 60 % 60) + "m" + (Seconds(s) + FractionText(u, 9) + "s"), total) ==
      Some(total + (s / 60 % 60 * 60000000000 + s % 60 * 1000000000 + u % 1000000000) as real)
  {
    hide Sum, UnitAt, Decimal, FractionText;
    var s := u / 1000000000;
    var tail := Seconds(s) + FractionText(u, 9) + "s";
    assert tail == Decimal(s % 60) + (FractionText(u, 9) + "s");
    StartsWithDigit(s % 60, FractionText(u, 9) + "s");
    UnitNames(tail);
    SumWhole(s / 60 % 60, Unit(60000000000, 1), "m", tail, total);
    SumSeconds(u, total + (s / 60 % 60 * 60000000000) as real);
  }

  lemma SumHours(u: nat)
    ensures var s := u / 1000000000;
      Sum(Decimal(s / 60 / 60) + "h" + (Decimal(s / 60 % 60) + "m" + (Seconds(s) + FractionText(u, 9) + "s")), 0.0) == Some(u as real)
  {
    hide Sum, UnitAt, Decimal, FractionText, Seconds;
    var s := u / 1000000000;
    var tail := Seconds(s) + FractionText(u, 9) + "s";
    var low := Decimal(s / 60 % 60) + "m" + tail;
    assert low == Decimal(s / 60 % 60) + ("m" + tail);
    StartsWithDigit(s / 60 % 60, "m" + tail);
    UnitNames(low);
    SumWhole(s / 60 / 60, Unit(3600000000000, 1), "h", low, 0.0);
    SumMinutes(u, 0.0 + (s / 60 / 60 * 3600000000000) as real);
  }

  /** Reading the text of any number of nanoseconds gives that number. */
  lemma SumClock(u: nat)
    requires u >= 1000000000
    ensures Sum(Body(u), 0.0) == Some(u as real)
  {
    hide Sum, UnitAt, Decimal, FractionText, Seconds;
    var s := u / 1000000000;
    var tail := Seconds(s) + FractionText(u, 9) + "s";
    var minutes := Decimal(s / 60 % 60) + "m";
    if s / 60 == 0 {
      assert "" + tail == tail;
      SumSeconds(u, 0.0);
    } else if s / 60 / 60 == 0 {
      assert "" + minutes + tail == minutes + tail;
      SumMinutes(u, 0.0);
    } else {
      Assoc(Decimal(s / 60 / 60) + "h", minutes, tail);
      SumHours(u);
    }
  }

  lemma SumBody(u: nat)
    ensures Sum(Body(u), 0.0) == Some(u as real)
  {
    hide Sum, UnitAt, Decimal, FractionText, Shift, Pow10;
    UnitNames("");
    Powers();
    ShiftIs(u);
    assert "ns" + "" == "ns" && Micro + "" == Micro && "ms" + "" == "ms";
    if u < 1000 {
      NoFraction(u);
      assert Decimal(u) + "" + "ns" == Decimal(u) + "ns";
      SumOne(u, 0, Unit(1, 2), "ns");
    } else if u < 1000000 {
      SumOne(u, 3, Unit(1000, 3), Micro);
    } else if u < 1000000000 {
      SumOne(u, 6, Unit(1000000, 2), "ms");
    } else {
      SumClock(u);
    }
  }

  lemma BodyStarts(u: nat)
    ensures Body(u) != "" && IsDigit(Body(u)[0])
  {
    hide Decimal, FractionText;
    var s := u / 1000000000;
    var m := s / 60;
    if u >= 1000000000 && m > 0 {
      if m / 60 > 0 { assert Body(u)[0] == Decimal(m / 60)[0]; } else { assert Body(u)[0] == Decimal(m % 60)[0]; }
    } else if u >= 1000000000 {
      assert Body(u)[0] == Decimal(s % 60)[0];
    }
  }

  const Int64Limit: int := 0x8000_0000_0000_0000

  /** The number of nanoseconds with that sign and magnitude, if it is in range. */
  predicate ReadsAs(ns: Option<int>, negative: bool, u: int) {
    ns == if u > Int64Limit then None else Some(if negative then -u else u)
  }

  /** The printed text of any number of milliseconds adds up to its nanoseconds. */
  lemma SumText(ms: int, u: nat)
    requires u == Nanoseconds(ms)
    ensures Sum(Unsigned(Text(ms)), 0.0) == Some(u as real) && (Negative(Text(ms)) <==> ms < 0)
  {
    hide Body, Sum, Nanoseconds;
    SumBody(u);
    BodyStarts(u);
    if ms == 0 {
      ZeroText();
      ZeroNanoseconds();
    } else if ms < 0 {
      assert Unsigned(Text(ms)) == Body(u);
    } else {
      assert Text(ms) == Body(u);
    }
  }

  /** What the printed text of any number of milliseconds stands for. */
  lemma ParsedText(ms: int, u: nat)
    requires u == Nanoseconds(ms)
    ensures ReadsAs(Parsed(Text(ms)), ms < 0, u)
  {
    hide Sum, Nanoseconds, Text;
    SumText(ms, u);
  }

  lemma ZeroNanoseconds()
    ensures Nanoseconds(0) == 0
  {
  }

  lemma ZeroText()
    ensures Sum("0s", 0.0) == Some(0.0)
  {
    hide Sum;
    SumSeconds(0, 0.0);
    assert Fraction(0, 9) == "" by { ZeroFraction(9); }
    assert Seconds(0) + FractionText(0, 9) + "s" == "0s";
  }

  lemma {:induction false} ZeroFraction(k: nat)
    ensures Fraction(0, k) == "" && Shift(0, k) == 0
  {
    if k > 0 { ZeroFraction(k - 1); }
  }

  /**
   * The nearest whole number of milliseconds, halves away from zero; none where the 64-bit
   * arithmetic overflows, which is undefined in C.
   */
  function BoundMs(ns: int): (ms: Option<int>)
    requires -Int64Limit <= ns < Int64Limit
    ensures ms.None? <==> ns >= Int64Limit - 500000 || ns <= -(Int64Limit - 500000)
    ensures ms.Some? ==> -500000 <= ns - ms.value * 1000000 <= 500000
  {
    var half := (if ns < 0 then -ns else ns) + 500000;
    if half >= Int64Limit then None
    else Some(if ns < 0 then -(half / 1000000) else half / 1000000)
  }

  /** Anything within half a millisecond binds to that millisecond. */
  lemma BindsNearest(ms: int, ns: int)
    requires -500000 < ns - ms * 1000000 < 500000 && -(Int64Limit - 500000) < ns < Int64Limit - 500000
    ensures BoundMs(ns) == Some(ms)
  {
  }

  /** A number of milliseconds is printed as a text that stands for it exactly when its nanoseconds fit 64 bits. */
  lemma TextStandsIff(ms: int)
    ensures Parsed(Text(ms)) == Some(ms * 1000000) <==> -Int64Limit <= ms * 1000000 < Int64Limit
  {
    hide Parsed, Text;
    ParsedText(ms, Nanoseconds(ms));
  }

  /** How far off the reading of a printed text may be, in nanoseconds. */
  function Slack(u: nat): (n: nat) { u / 48000000000000 + 2 }

  /** What the printed text of any number of milliseconds is read as in double precision. */
  lemma ReadText(ms: int, u: nat, ns: Option<int>)
    requires u == Nanoseconds(ms) && Reads(Text(ms), ns)
    ensures match ns
      case None => u + Slack(u) > Int64Limit
      case Some(n) => u - Slack(u) <= (if ms < 0 then -n else n) <= u + Slack(u)
  {
    hide Sum, Text, Near, Nanoseconds, Converted, Slack;
    SumText(ms, u);
    TextFits(ms);
    var x :| Near(x, u as real, 3 * |Text(ms)|) && ns == Converted(Negative(Text(ms)), x);
    NearWider(x, u as real, 3 * |Text(ms)|, 75);
    NearIsClose(x, u as real, 75);
    NearIsPositive(x, u as real, 75);
    SlackCovers(u);
    ConvertedNear(ms < 0, x, u, Slack(u));
  }

  lemma SlackCovers(u: nat)
    ensures Times(u as real, Drift(75)) + 1.0 <= Slack(u) as real
  {
    var q := u / 48000000000000;
    assert u < (q + 1) * 48000000000000;
    assert u as real <= (q + 1) as real * 48000000000000.0;
    assert 48000000000000.0 * Drift(75) <= 1.0;
  }

  lemma ConvertedNear(negative: bool, x: real, u: nat, slack: nat)
    requires x >= 0.0 && (u as real) + 1.0 - slack as real <= x <= (u as real) + slack as real - 1.0
    ensures match Converted(negative, x)
      case None => u + slack > Int64Limit
      case Some(n) => u - slack <= (if negative then -n else n) <= u + slack
  {
    assert x.Floor as real <= x < x.Floor as real + 1.0;
  }

  lemma InRange(ms: int)
    requires -Int64Limit <= ms * 1000000 < Int64Limit
    ensures var u := Nanoseconds(ms); u == (if ms < 0 then -ms else ms) * 1000000 && u + Slack(u) < Int64Limit - 500000
  {
    assert -9223372036854 <= ms <= 9223372036854;
  }

  /**
   * Printing, reading in double precision and binding gives back every number of milliseconds whose
   * nanoseconds fit 64 bits, and no other.
   */
  lemma DurationRoundTrip(ms: int, ns: Option<int>)
    requires Reads(Text(ms), ns)
    ensures (ns.Some? && -Int64Limit <= ns.value < Int64Limit && BoundMs(ns.value) == Some(ms)) <==>
            -Int64Limit <= ms * 1000000 < Int64Limit
  {
    hide Reads, Text;
    if -Int64Limit <= ms * 1000000 < Int64Limit {
      InRange(ms);
      ReadText(ms, Nanoseconds(ms), ns);
      BindsNearest(ms, ns.value);
    }
  }
}
