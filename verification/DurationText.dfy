/** Durations as Go prints them: a number of milliseconds written from the right into a small buffer. */
module DurationText {
  import opened Decimals

  const TwoTo64: nat := 0x1_0000_0000_0000_0000

  /** `v` without its lowest `k` digits. */
  function Shift(v: nat, k: nat): (r: nat) {
    if k == 0 then v else Shift(v, k - 1) / 10
  }

  /** Digit `k` of `v`, counted from the right. */
  function DigitAt(v: nat, k: nat): (d: nat)
    ensures d < 10
  {
    Shift(v, k) % 10
  }

  /** The lowest `k` digits of `v` without their trailing zeros. */
  function Fraction(v: nat, k: nat): (s: string)
    ensures |s| <= k && AllDigits(s)
  {
    if k == 0 then ""
    else
      var t := Fraction(v, k - 1);
      if t == "" && DigitAt(v, k - 1) == 0 then "" else [DigitChar(DigitAt(v, k - 1))] + t
  }

  function FractionText(v: nat, k: nat): (s: string)
    ensures |s| <= k + 1
  {
    if Fraction(v, k) == "" then "" else "." + Fraction(v, k)
  }

  const Micro := "\U{C2}\U{B5}s"

  function Seconds(s: nat): (t: string) { Decimal(s % 60) }

  /** The minutes and hours in front of the seconds. */
  function Minutes(s: nat): (t: string) {
    var m := s / 60;
    if m == 0 then ""
    else (if m / 60 == 0 then "" else Decimal(m / 60) + "h") + (Decimal(m % 60) + "m")
  }

  /** The text of `u` nanoseconds. */
  function Body(u: nat): (t: string) {
    if u < 1000 then Decimal(u) + "ns"
    else if u < 1000000 then Decimal(u / 1000) + FractionText(u, 3) + Micro
    else if u < 1000000000 then Decimal(u / 1000000) + FractionText(u, 6) + "ms"
    else Minutes(u / 1000000000) + (Seconds(u / 1000000000) + FractionText(u, 9) + "s")
  }

  /** The magnitude in nanoseconds, in sixty-four bits. */
  function Nanoseconds(ms: int): (u: nat)
    ensures u < TwoTo64
  {
    (if ms < 0 then -ms else ms) * 1000000 % TwoTo64
  }

  function Text(ms: int): (t: string) {
    if ms == 0 then "0s" else (if ms < 0 then "-" else "") + Body(Nanoseconds(ms))
  }

  // ---- writing from the right ----

  method Prepend(tmp: array<char>, w: nat, s: string) returns (v: nat)
    requires |s| <= w <= tmp.Length
    modifies tmp
    ensures v == w - |s| && tmp[v..] == s + old(tmp[w..])
  {
    v := w - |s|;
    forall i | 0 <= i < |s| { tmp[v + i] := s[i]; }
    assert tmp[w..] == old(tmp[w..]);
    assert tmp[v..] == tmp[v..w] + tmp[w..] && tmp[v..w] == s;
  }

  /** The lowest `prec` digits, without trailing zeros, behind a point; returns the other digits. */
  method PutFraction(tmp: array<char>, w: nat, v: nat, prec: nat) returns (w': nat, v': nat)
    requires prec + 1 <= w <= tmp.Length
    modifies tmp
    ensures v' == Shift(v, prec) && w' == w - |FractionText(v, prec)|
    ensures tmp[w'..] == FractionText(v, prec) + old(tmp[w..])
  {
    hide Fraction;
    ghost var tail := tmp[w..];
    var started := false;
    w', v' := w, v;
    var i := 0;
    FractionZero(v, tail);
    while i < prec
      invariant 0 <= i <= prec
      invariant v' == Shift(v, i) && (started <==> Fraction(v, i) != "")
      invariant w' == w - |Fraction(v, i)| && tmp[w'..] == Fraction(v, i) + tail
    {
      var digit := v' % 10;
      started := started || digit != 0;
      FractionStep(v, i, tail);
      if started {
        w' := Prepend(tmp, w', [DigitChar(digit)]);
      }
      v' := v' / 10;
      i := i + 1;
    }
    if started {
      w' := Prepend(tmp, w', ".");
      assert "." + (Fraction(v, prec) + tail) == "." + Fraction(v, prec) + tail;
    }
  }

  lemma FractionZero(v: nat, tail: string)
    ensures Fraction(v, 0) == "" && "" + tail == tail
  {
  }

  lemma FractionStep(v: nat, k: nat, tail: string)
    ensures var d, t := DigitAt(v, k), Fraction(v, k);
      if t == "" && d == 0 then Fraction(v, k + 1) == ""
      else Fraction(v, k + 1) == [DigitChar(d)] + t && [DigitChar(d)] + (t + tail) == Fraction(v, k + 1) + tail
  {
  }

  method PutInt(tmp: array<char>, w: nat, v: nat) returns (w': nat)
    requires |Decimal(v)| <= w <= tmp.Length
    modifies tmp
    ensures w' == w - |Decimal(v)| && tmp[w'..] == Decimal(v) + old(tmp[w..])
  {
    if v == 0 {
      w' := Prepend(tmp, w, "0");
      return;
    }
    var u := v;
    w' := w;
    ghost var done := "";
    assert done + old(tmp[w..]) == old(tmp[w..]) && Decimal(v) + done == Decimal(v);
    while u > 0
      invariant Decimal(v) == (if u == 0 then "" else Decimal(u)) + done
      invariant w' == w - |done| && tmp[w'..] == done + old(tmp[w..])
    {
      var c := DigitChar(u % 10);
      w' := Prepend(tmp, w', [c]);
      assert [c] + (done + old(tmp[w..])) == [c] + done + old(tmp[w..]);
      assert Decimal(u) + done == (if u < 10 then "" else Decimal(u / 10)) + ([c] + done);
      done := [c] + done;
      u := u / 10;
    }
    assert "" + done == done;
  }

  // ---- the whole text ----

  lemma ShiftIs(u: nat)
    ensures Shift(u, 0) == u && Shift(u, 3) == u / 1000 && Shift(u, 6) == u / 1000000 && Shift(u, 9) == u / 1000000000
  {
    assert Shift(u, 1) == u / 10 && Shift(u, 2) == u / 100 && Shift(u, 3) == u / 1000;
    assert Shift(u, 4) == u / 10000 && Shift(u, 5) == u / 100000 && Shift(u, 6) == u / 1000000;
    assert Shift(u, 7) == u / 10000000 && Shift(u, 8) == u / 100000000;
  }

  lemma SmallDecimal(n: nat)
    ensures n < 100 ==> |Decimal(n)| <= 2
    ensures n < 1000 ==> |Decimal(n)| <= 3
    ensures n < 10000000 ==> |Decimal(n)| <= 7
  {
    assert Pow10(2) == 100 && Pow10(3) == 1000 && Pow10(5) == 100000 && Pow10(7) == 10000000;
    if n < 100 { DecimalLength(n, 2); }
    if n < 1000 { DecimalLength(n, 3); }
    if n < 10000000 { DecimalLength(n, 7); }
  }

  lemma MinutesFit(u: nat)
    requires u < TwoTo64
    ensures |Minutes(u / 1000000000)| <= 11 && |Seconds(u / 1000000000)| <= 2
  {
    hide Decimal;
    var s := u / 1000000000;
    SmallDecimal(s % 60);
    SmallDecimal(s / 60 % 60);
    SmallDecimal(s / 60 / 60);
  }

  /** No duration takes more than 25 bytes, so 48 are enough for the digits of any of them. */
  lemma TextFits(ms: int)
    ensures |Text(ms)| <= 25
  {
    hide Decimal, Minutes, Seconds, FractionText;
    var u := Nanoseconds(ms);
    if u < 1000 { SmallDecimal(u); }
    else if u < 1000000 { SmallDecimal(u / 1000); }
    else if u < 1000000000 { SmallDecimal(u / 1000000); }
    else { MinutesFit(u); }
  }

  lemma Assoc(a: string, b: string, c: string)
    ensures a + (b + c) == a + b + c
  {
  }

  /** A number, its fraction and its unit in front of what is there. */
  method PutAmount(tmp: array<char>, w: nat, u: nat, prec: nat, unit: string) returns (w': nat, v: nat)
    requires |unit| + prec + 1 + |Decimal(Shift(u, prec))| <= w <= tmp.Length
    modifies tmp
    ensures v == Shift(u, prec) && w' <= tmp.Length && w - w' <= |unit| + prec + 1 + |Decimal(v)|
    ensures tmp[w'..] == Decimal(v) + FractionText(u, prec) + unit + old(tmp[w..])
  {
    hide Decimal, FractionText, Shift;
    ghost var tail, fraction := tmp[w..], FractionText(u, prec);
    w' := Prepend(tmp, w, unit);
    w', v := PutFraction(tmp, w', u, prec);
    w' := PutInt(tmp, w', v);
    Assoc(Decimal(v), fraction, unit + tail);
    Assoc(Decimal(v) + fraction, unit, tail);
  }

  method PutSmall(tmp: array<char>, w: nat, u: nat) returns (w': nat)
    requires 24 <= w <= tmp.Length && u < 1000000000
    modifies tmp
    ensures w' <= tmp.Length && w - w' <= 24
    ensures tmp[w'..] == Body(u) + old(tmp[w..])
  {
    hide Decimal, FractionText, Shift;
    ShiftIs(u);
    var v;
    if u < 1000 {
      SmallDecimal(u);
      NoFraction(u);
      w', v := PutAmount(tmp, w, u, 0, "ns");
      assert Decimal(u) + "" == Decimal(u);
    } else if u < 1000000 {
      SmallDecimal(u / 1000);
      w', v := PutAmount(tmp, w, u, 3, Micro);
    } else {
      SmallDecimal(u / 1000000);
      w', v := PutAmount(tmp, w, u, 6, "ms");
    }
  }

  /** The minutes, if any, and in front of them the hours, if any. */
  method PutMinutes(tmp: array<char>, w: nat, s: nat) returns (w': nat)
    requires 11 <= w <= tmp.Length && s / 60 / 60 < 10000000
    modifies tmp
    ensures w' <= tmp.Length && w - w' <= 11 && tmp[w'..] == Minutes(s) + old(tmp[w..])
  {
    hide Decimal;
    ghost var tail := tmp[w..];
    w' := w;
    var m := s / 60;
    if m == 0 {
      assert "" + tail == tail;
      return;
    }
    w' := Prepend(tmp, w', "m");
    SmallDecimal(m % 60);
    w' := PutInt(tmp, w', m % 60);
    ghost var minutes := Decimal(m % 60) + "m";
    Assoc(Decimal(m % 60), "m", tail);
    var h := m / 60;
    if h == 0 {
      assert "" + minutes == minutes;
      return;
    }
    w' := Prepend(tmp, w', "h");
    SmallDecimal(h);
    w' := PutInt(tmp, w', h);
    Assoc(Decimal(h), "h", minutes + tail);
    Assoc(Decimal(h) + "h", minutes, tail);
  }

  method PutClock(tmp: array<char>, w: nat, u: nat) returns (w': nat)
    requires 24 <= w <= tmp.Length && u < TwoTo64
    modifies tmp
    ensures w' <= tmp.Length && w - w' <= 24
    ensures tmp[w'..] == Minutes(u / 1000000000) + (Seconds(u / 1000000000) + FractionText(u, 9) + "s") + old(tmp[w..])
  {
    hide Decimal, FractionText, Minutes, Shift;
    ghost var tail, fraction := tmp[w..], FractionText(u, 9);
    ShiftIs(u);
    var s;
    w' := Prepend(tmp, w, "s");
    w', s := PutFraction(tmp, w', u, 9);
    SmallDecimal(s % 60);
    w' := PutInt(tmp, w', s % 60);
    Assoc(Decimal(s % 60), fraction, "s" + tail);
    Assoc(Decimal(s % 60) + fraction, "s", tail);
    w' := PutMinutes(tmp, w', s);
    Assoc(Minutes(s), Seconds(s) + fraction + "s", tail);
  }

  lemma NoFraction(u: nat)
    ensures FractionText(u, 0) == ""
  {
  }

  /** What snprintf leaves of a text in a buffer of `cap` bytes. */
  function Cut(s: string, cap: nat): (r: string)
    requires cap > 0
  {
    if |s| < cap then s else s[..cap - 1]
  }

  /** The text if it fits the caller's buffer with its terminator, and "0s" otherwise. */
  method PrintDuration(ms: int, cap: nat) returns (text: string)
    requires -0x8000_0000_0000_0000 <= ms < 0x8000_0000_0000_0000
    ensures text ==
      if cap == 0 then "" else if |Text(ms)| < cap then Text(ms) else Cut("0s", cap)
  {
    hide Body;
    if cap == 0 { return ""; }
    if ms == 0 { return Cut("0s", cap); }
    var u := (if ms < 0 then -ms else ms) * 1000000 % TwoTo64;
    var tmp := new char[48];
    var w := 48;
    assert tmp[48..] == "";
    if u < 1000000000 {
      w := PutSmall(tmp, w, u);
    } else {
      w := PutClock(tmp, w, u);
      ClockBody(u);
    }
    assert Body(u) + "" == Body(u);
    if ms < 0 {
      w := Prepend(tmp, w, "-");
    } else {
      assert "" + Body(u) == Body(u);
    }
    assert tmp[w..] == Text(ms);
    if 48 - w < cap { return tmp[w..]; }
    return Cut("0s", cap);
  }

  lemma ClockBody(u: nat)
    requires u >= 1000000000
    ensures Body(u) == Minutes(u / 1000000000) + (Seconds(u / 1000000000) + FractionText(u, 9) + "s")
  {
  }
}
