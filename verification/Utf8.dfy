/** UTF-8: writing Unicode scalar values as octets, and the strict reading of section 4 of RFC 3629. */
module Utf8 {
  import opened Options
  import opened Bytes

  /** A code point that is not half of a surrogate pair. */
  type Scalar = c: int | 0 <= c < 0x110000 && !(0xD800 <= c < 0xE000)

  function EncodeOne(c: Scalar): (s: seq<Byte>)
    ensures 1 <= |s| <= 4
  {
    if c < 0x80 then [c]
    else if c < 0x800 then [0xC0 + c / 64, 0x80 + c % 64]
    else if c < 0x10000 then [0xE0 + c / 64 / 64, 0x80 + c / 64 % 64, 0x80 + c % 64]
    else [0xF0 + c / 64 / 64 / 64, 0x80 + c / 64 / 64 % 64, 0x80 + c / 64 % 64, 0x80 + c % 64]
  }

  function Encode(s: seq<Scalar>): (b: seq<Byte>) {
    if s == [] then [] else EncodeOne(s[0]) + Encode(s[1..])
  }

  predicate IsTail(b: int) { 0x80 <= b < 0xC0 }

  predicate IsTwo(b: seq<Byte>) { |b| >= 2 && 0xC2 <= b[0] < 0xE0 && IsTail(b[1]) }

  /** Neither overlong nor a surrogate. */
  predicate IsThree(b: seq<Byte>) {
    && |b| >= 3 && 0xE0 <= b[0] < 0xF0 && IsTail(b[1]) && IsTail(b[2])
    && (b[0] == 0xE0 ==> b[1] >= 0xA0) && (b[0] == 0xED ==> b[1] < 0xA0)
  }

  /** Neither overlong nor beyond the last code point. */
  predicate IsFour(b: seq<Byte>) {
    && |b| >= 4 && 0xF0 <= b[0] < 0xF5 && IsTail(b[1]) && IsTail(b[2]) && IsTail(b[3])
    && (b[0] == 0xF0 ==> b[1] >= 0x90) && (b[0] == 0xF4 ==> b[1] < 0x90)
  }

  function Low(b: int): (n: int) { b - 0x80 }

  /** The first character of some octets and how many of them it takes. */
  function DecodeOne(b: seq<Byte>): (r: Option<(Scalar, nat)>)
    ensures r.Some? ==> 1 <= r.value.1 <= |b|
  {
    if |b| >= 1 && b[0] < 0x80 then Some((b[0], 1))
    else if IsTwo(b) then Some(((b[0] - 0xC0) * 64 + Low(b[1]), 2))
    else if IsThree(b) then Some((((b[0] - 0xE0) * 64 + Low(b[1])) * 64 + Low(b[2]), 3))
    else if IsFour(b) then Some(((((b[0] - 0xF0) * 64 + Low(b[1])) * 64 + Low(b[2])) * 64 + Low(b[3]), 4))
    else None
  }

  function Decode(b: seq<Byte>): (r: Option<seq<Scalar>>) {
    if b == [] then Some([])
    else
      match DecodeOne(b)
      case None => None
      case Some((c, n)) =>
        match Decode(b[n..])
        case None => None
        case Some(later) => Some([c] + later)
  }

  lemma Digits(h: int, l: int)
    requires 0 <= l < 64
    ensures (h * 64 + l) / 64 == h && (h * 64 + l) % 64 == l
  {
  }

  lemma ReadOne(b: seq<Byte>)
    requires |b| >= 1 && b[0] < 0x80
    ensures DecodeOne(b) == Some((b[0], 1)) && EncodeOne(b[0]) == b[..1]
  {
  }

  lemma ReadTwo(b: seq<Byte>, c: int)
    requires IsTwo(b) && c == (b[0] - 0xC0) * 64 + Low(b[1])
    ensures 0x80 <= c < 0x800 && DecodeOne(b) == Some((c, 2)) && EncodeOne(c) == b[..2]
  {
    Digits(b[0] - 0xC0, Low(b[1]));
  }

  lemma ReadThree(b: seq<Byte>, q: int, c: int)
    requires IsThree(b) && q == (b[0] - 0xE0) * 64 + Low(b[1]) && c == q * 64 + Low(b[2])
    ensures 0x800 <= c < 0x10000 && !(0xD800 <= c < 0xE000)
    ensures DecodeOne(b) == Some((c, 3)) && EncodeOne(c) == b[..3]
  {
    Digits(b[0] - 0xE0, Low(b[1]));
    Digits(q, Low(b[2]));
    assert b[..3] == [b[0], b[1], b[2]];
  }

  lemma ReadFour(b: seq<Byte>, p: int, q: int, c: int)
    requires IsFour(b) && p == (b[0] - 0xF0) * 64 + Low(b[1]) && q == p * 64 + Low(b[2]) && c == q * 64 + Low(b[3])
    ensures 0x10000 <= c < 0x110000
    ensures DecodeOne(b) == Some((c, 4)) && EncodeOne(c) == b[..4]
  {
    Digits(b[0] - 0xF0, Low(b[1]));
    Digits(p, Low(b[2]));
    Digits(q, Low(b[3]));
    assert b[..4] == [b[0], b[1], b[2], b[3]];
  }

  lemma OneRoundTrip(c: Scalar, rest: seq<Byte>)
    ensures DecodeOne(EncodeOne(c) + rest) == Some((c, |EncodeOne(c)|))
  {
    hide DecodeOne;
    var b := EncodeOne(c) + rest;
    if c < 0x80 {
      ReadOne(b);
    } else if c < 0x800 {
      ReadTwo(b, c);
    } else if c < 0x10000 {
      ReadThree(b, c / 64, c);
    } else {
      ReadFour(b, c / 64 / 64, c / 64, c);
    }
  }

  /** The octets read are the only way to write the character. */
  lemma OneIsShortest(b: seq<Byte>)
    requires DecodeOne(b).Some?
    ensures var (c, n) := DecodeOne(b).value; b[..n] == EncodeOne(c)
  {
    hide EncodeOne;
    if |b| >= 1 && b[0] < 0x80 {
      ReadOne(b);
    } else if IsTwo(b) {
      ReadTwo(b, DecodeOne(b).value.0);
    } else if IsThree(b) {
      ReadThree(b, (b[0] - 0xE0) * 64 + Low(b[1]), DecodeOne(b).value.0);
    } else {
      var p := (b[0] - 0xF0) * 64 + Low(b[1]);
      ReadFour(b, p, p * 64 + Low(b[2]), DecodeOne(b).value.0);
    }
  }

  /** Every text reads back... */
  lemma {:induction false} TextRoundTrip(s: seq<Scalar>)
    ensures Decode(Encode(s)) == Some(s)
  {
    hide EncodeOne, DecodeOne;
    if s != [] {
      var b, later := EncodeOne(s[0]), Encode(s[1..]);
      OneRoundTrip(s[0], later);
      TextRoundTrip(s[1..]);
      assert (b + later)[|b|..] == later;
      assert s == [s[0]] + s[1..];
    }
  }

  /** ...and octets that can be read are the writing of what was read. */
  lemma {:induction false} OctetsRoundTrip(b: seq<Byte>)
    requires Decode(b).Some?
    ensures Encode(Decode(b).value) == b
  {
    hide EncodeOne, DecodeOne;
    if b != [] {
      OneIsShortest(b);
      var (c, n) := DecodeOne(b).value;
      OctetsRoundTrip(b[n..]);
      var later := Decode(b[n..]).value;
      assert Decode(b).value == [c] + later && ([c] + later)[1..] == later;
      assert b == b[..n] + b[n..];
    }
  }

  /** Octets can be read exactly if they are the writing of some text. */
  lemma DecodableIff(b: seq<Byte>)
    ensures Decode(b).Some? <==> exists s :: Encode(s) == b
  {
    hide Encode, Decode;
    if Decode(b).Some? {
      OctetsRoundTrip(b);
    }
    if s :| Encode(s) == b {
      TextRoundTrip(s);
    }
  }
}
