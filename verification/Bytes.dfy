/** Bytes, big-endian numbers and exclusive or. */
module Bytes {
  type Byte = b: int | 0 <= b < 256

  function Pow256(k: nat): (r: nat)
    ensures r > 0
  {
    if k == 0 then 1 else 256 * Pow256(k - 1)
  }

  /** `k` bytes, most significant first. */
  function BigEndian(n: nat, k: nat): (s: seq<Byte>)
    ensures |s| == k
  {
    if k == 0 then [] else BigEndian(n / 256, k - 1) + [n % 256]
  }

  function Number(s: seq<Byte>): (n: nat) {
    if s == [] then 0 else 256 * Number(s[..|s| - 1]) + s[|s| - 1]
  }

  lemma {:induction false} NumberOfBigEndian(n: nat, k: nat)
    requires n < Pow256(k)
    ensures Number(BigEndian(n, k)) == n
  {
    if k > 0 {
      NumberOfBigEndian(n / 256, k - 1);
      assert BigEndian(n, k)[..k - 1] == BigEndian(n / 256, k - 1);
    }
  }

  lemma {:induction false} NumberBound(s: seq<Byte>)
    ensures Number(s) < Pow256(|s|)
  {
    if s != [] { NumberBound(s[..|s| - 1]); }
  }

  /** Bitwise exclusive or of the low `bits` bits. */
  function XorBits(a: nat, b: nat, bits: nat): (r: nat) {
    if bits == 0 then 0 else 2 * XorBits(a / 2, b / 2, bits - 1) + XorBit(a, b)
  }

  /** Exclusive or of the lowest bits. */
  function XorBit(a: nat, b: nat): (r: nat) {
    if a % 2 == b % 2 then 0 else 1
  }

  lemma BitBack(a: nat, m: nat, half: nat, x: nat)
    requires x == 2 * half + XorBit(a, m)
    ensures x / 2 == half && XorBit(x, m) == a % 2
  {
  }

  lemma {:induction false} XorBitsUndo(a: nat, m: nat, bits: nat, top: nat)
    requires top == Pow2(bits) && a < top
    ensures XorBits(a, m, bits) < top && XorBits(XorBits(a, m, bits), m, bits) == a
  {
    if bits > 0 {
      XorBitsUndo(a / 2, m / 2, bits - 1, top / 2);
      var half := XorBits(a / 2, m / 2, bits - 1);
      BitBack(a, m, half, 2 * half + XorBit(a, m));
    }
  }

  function Pow2(bits: nat): (r: nat) {
    if bits == 0 then 1 else 2 * Pow2(bits - 1)
  }

  lemma ByteBits()
    ensures Pow2(8) == 256
  {
    assert Pow2(4) == 16;
  }

  function Xor(a: Byte, b: Byte): (r: Byte) {
    ByteBits();
    XorBitsUndo(a, b, 8, 256);
    XorBits(a, b, 8)
  }

  lemma XorUndoes(a: Byte, m: Byte)
    ensures Xor(Xor(a, m), m) == a
  {
    hide XorBits;
    ByteBits();
    XorBitsUndo(a, m, 8, 256);
  }
}
