/** Three-way comparators in Go's convention (-1, 0, 1) and their lexicographic lifting. */
module Orders {

  type Comparator<!T> = (T, T) -> int

  /** A comparator is a total preorder: three-valued, sign-antisymmetric (hence reflexive) and transitive. */
  ghost predicate IsTotalPreorder<T(!new)>(cmp: Comparator<T>) {
    && (forall x, y :: -1 <= cmp(x, y) <= 1)
    && (forall x, y :: cmp(x, y) == -cmp(y, x))
    && (forall x, y, z :: cmp(x, y) <= 0 && cmp(y, z) <= 0 ==> cmp(x, z) <= 0)
  }

  /** Two values the comparator calls equal are the same value. */
  ghost predicate IsExact<T(!new)>(cmp: Comparator<T>) {
    forall x, y :: cmp(x, y) == 0 ==> x == y
  }

  function Sign(n: int): (s: int) {
    if n < 0 then -1 else if n == 0 then 0 else 1
  }

  function CompareNat(m: nat, n: nat): (c: int) {
    Sign(m - n)
  }

  function CompareChar(a: char, b: char): (c: int) {
    Sign(a as int - b as int)
  }

  /** Lexicographic order: the first differing position decides and a proper prefix comes first. */
  function Lex<T>(cmp: Comparator<T>, a: seq<T>, b: seq<T>): (c: int) {
    if a == [] && b == [] then 0
    else if a == [] then -1
    else if b == [] then 1
    else if cmp(a[0], b[0]) != 0 then cmp(a[0], b[0])
    else Lex(cmp, a[1..], b[1..])
  }

  lemma LexCons<T(!new)>(cmp: Comparator<T>, x: T, a: seq<T>, y: T, b: seq<T>)
    ensures Lex(cmp, [x] + a, [y] + b) == if cmp(x, y) != 0 then cmp(x, y) else Lex(cmp, a, b)
  {
    assert ([x] + a)[1..] == a && ([y] + b)[1..] == b;
  }

  /** Go's strings.Compare. */
  function CompareStrings(a: string, b: string): (c: int) {
    Lex(CompareChar, a, b)
  }

  lemma {:induction false} LexAntisymmetric<T(!new)>(cmp: Comparator<T>, a: seq<T>, b: seq<T>)
    requires IsTotalPreorder(cmp)
    ensures -1 <= Lex(cmp, a, b) <= 1
    ensures Lex(cmp, a, b) == -Lex(cmp, b, a)
  {
    if a != [] && b != [] {
      LexAntisymmetric(cmp, a[1..], b[1..]);
    }
  }

  lemma {:induction false} LexTransitive<T(!new)>(cmp: Comparator<T>, a: seq<T>, b: seq<T>, c: seq<T>)
    requires IsTotalPreorder(cmp)
    requires Lex(cmp, a, b) <= 0 && Lex(cmp, b, c) <= 0
    ensures Lex(cmp, a, c) <= 0
  {
    if a != [] && b != [] && c != [] {
      var x, y, z := a[0], b[0], c[0];
      assert cmp(x, y) <= 0 && cmp(y, z) <= 0;
      assert cmp(x, z) <= 0;
      if cmp(x, z) == 0 {
        assert cmp(z, x) <= 0;
        assert cmp(z, y) <= 0 && cmp(y, x) <= 0;
        LexTransitive(cmp, a[1..], b[1..], c[1..]);
      }
    }
  }

  lemma {:induction false} LexReflexive<T(!new)>(cmp: Comparator<T>, a: seq<T>)
    requires IsTotalPreorder(cmp)
    ensures Lex(cmp, a, a) == 0
  {
    if a != [] {
      LexReflexive(cmp, a[1..]);
    }
  }

  lemma {:induction false} LexExact<T(!new)>(cmp: Comparator<T>, a: seq<T>, b: seq<T>)
    requires IsTotalPreorder(cmp) && IsExact(cmp)
    requires Lex(cmp, a, b) == 0
    ensures a == b
  {
    if a != [] && b != [] {
      LexExact(cmp, a[1..], b[1..]);
      assert a == [a[0]] + a[1..] && b == [b[0]] + b[1..];
    }
  }

  /** A common prefix does not influence the comparison. */
  lemma {:induction false} LexCommonPrefix<T(!new)>(cmp: Comparator<T>, p: seq<T>, a: seq<T>, b: seq<T>)
    requires IsTotalPreorder(cmp)
    ensures Lex(cmp, p + a, p + b) == Lex(cmp, a, b)
  {
    if p == [] {
      assert p + a == a && p + b == b;
    } else {
      LexCommonPrefix(cmp, p[1..], a, b);
      assert (p + a)[1..] == p[1..] + a && (p + b)[1..] == p[1..] + b;
    }
  }

  /** Once two sequences differ inside both, what follows is irrelevant. */
  lemma {:induction false} LexDecided<T(!new)>(cmp: Comparator<T>, a: seq<T>, b: seq<T>, a': seq<T>, b': seq<T>, k: nat)
    requires k < |a| && k < |b| && a[..k] == b[..k] && cmp(a[k], b[k]) != 0
    requires IsTotalPreorder(cmp)
    ensures Lex(cmp, a + a', b + b') == Lex(cmp, a, b) == cmp(a[k], b[k])
  {
    var p := a[..k];
    assert a == p + a[k..] && b == p + b[k..];
    assert a + a' == p + (a[k..] + a') && b + b' == p + (b[k..] + b');
    LexCommonPrefix(cmp, p, a[k..], b[k..]);
    LexCommonPrefix(cmp, p, a[k..] + a', b[k..] + b');
  }

  lemma CharOrder()
    ensures IsTotalPreorder(CompareChar) && IsExact(CompareChar)
  {
  }

  lemma StringOrder()
    ensures IsTotalPreorder(CompareStrings) && IsExact(CompareStrings)
  {
    CharOrder();
    forall a, b
      ensures -1 <= CompareStrings(a, b) <= 1 && CompareStrings(a, b) == -CompareStrings(b, a)
      ensures CompareStrings(a, b) == 0 ==> a == b
    {
      LexAntisymmetric(CompareChar, a, b);
      if CompareStrings(a, b) == 0 {
        LexExact(CompareChar, a, b);
      }
    }
    forall a, b, c | CompareStrings(a, b) <= 0 && CompareStrings(b, c) <= 0
      ensures CompareStrings(a, c) <= 0
    {
      LexTransitive(CompareChar, a, b, c);
    }
  }
}
