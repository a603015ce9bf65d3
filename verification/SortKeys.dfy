/** Sorting records by a list of text fields, the first that differs deciding. */
module SortKeys {
  import opened Orders
  import Sort = StableSort

  predicate KeyBefore(a: seq<string>, b: seq<string>) { Lex(CompareStrings, a, b) <= 0 }

  function By<T>(key: T -> seq<string>): (le: Sort.Order<T>) {
    (a: T, b: T) => KeyBefore(key(a), key(b))
  }

  lemma KeysOrder()
    ensures Sort.IsOrder(KeyBefore)
    ensures forall a, b :: KeyBefore(a, b) && KeyBefore(b, a) ==> a == b
  {
    hide Lex, CompareStrings;
    StringOrder();
    forall a, b ensures (KeyBefore(a, b) || KeyBefore(b, a)) && (KeyBefore(a, b) && KeyBefore(b, a) ==> a == b) {
      LexAntisymmetric(CompareStrings, a, b);
      if Lex(CompareStrings, a, b) == 0 { LexExact(CompareStrings, a, b); }
    }
    forall a, b, c | KeyBefore(a, b) && KeyBefore(b, c) ensures KeyBefore(a, c) {
      LexTransitive(CompareStrings, a, b, c);
    }
  }

  lemma ByIsOrder<T(!new)>(key: T -> seq<string>)
    ensures Sort.IsOrder(By(key))
  {
    hide KeyBefore;
    KeysOrder();
    forall x, y, z | By(key)(x, y) && By(key)(y, z) ensures By(key)(x, z) {
      assert KeyBefore(key(x), key(y)) && KeyBefore(key(y), key(z));
    }
  }

  /** The elements of `s`, each as often as there, in the order of their keys. */
  ghost predicate IsSortOf<T>(key: T -> seq<string>, s: seq<T>, r: seq<T>) {
    multiset(r) == multiset(s) && Sort.Ordered(By(key), r)
  }

  lemma SortKeeps<T>(key: T -> seq<string>, s: seq<T>, r: seq<T>)
    requires IsSortOf(key, s, r)
    ensures |r| == |s| && multiset(r) == multiset(s) && forall x :: x in r <==> x in s
  {
    assert |multiset(r)| == |multiset(s)|;
    assert forall x :: (x in s <==> x in multiset(s)) && (x in r <==> x in multiset(r));
  }

  method SortBy<T(!new)>(key: T -> seq<string>, s: seq<T>) returns (r: seq<T>)
    ensures IsSortOf(key, s, r)
  {
    r := Sort.Sorted(By(key), s);
    SortedIsSort(key, s);
  }

  lemma SortedIsSort<T(!new)>(key: T -> seq<string>, s: seq<T>)
    ensures IsSortOf(key, s, Sort.Sorted(By(key), s))
  {
    hide By, Sort.Sorted;
    Sort.SortedKeeps(By(key), s);
    ByIsOrder(key);
    Sort.SortedOrders(By(key), s);
  }

  lemma {:induction false} RestOrdered<T>(le: Sort.Order<T>, s: seq<T>)
    requires Sort.Ordered(le, s) && s != []
    ensures Sort.Ordered(le, s[1..])
    ensures forall i :: 0 < i < |s| ==> le(s[0], s[i])
  {
    forall i, j | 0 <= i < j < |s[1..]| ensures le(s[1..][i], s[1..][j]) {
      assert le(s[i + 1], s[j + 1]);
    }
  }

  lemma RestOf<T>(s: seq<T>)
    requires s != []
    ensures s == [s[0]] + s[1..] && multiset(s[1..]) == multiset(s) - multiset{s[0]}
  {
    assert s == [s[0]] + s[1..];
  }

  /** Elements with the same key are the same. */
  ghost predicate NoTies<T(!new)>(key: T -> seq<string>, s: seq<T>) {
    forall x, y :: x in s && y in s && key(x) == key(y) ==> x == y
  }

  lemma {:induction false} SortsAgree<T(!new)>(key: T -> seq<string>, a: seq<T>, b: seq<T>)
    requires multiset(a) == multiset(b) && Sort.Ordered(By(key), a) && Sort.Ordered(By(key), b) && NoTies(key, a)
    ensures a == b
  {
    hide By, Sort.Ordered, NoTies;
    assert |a| == |multiset(a)| == |multiset(b)| == |b|;
    if a != [] {
      RestOrdered(By(key), a);
      RestOrdered(By(key), b);
      SameFirst(key, a, b);
      RestOf(a);
      RestOf(b);
      NoTiesInRest(key, a);
      SortsAgree(key, a[1..], b[1..]);
    }
  }

  lemma NoTiesInRest<T(!new)>(key: T -> seq<string>, s: seq<T>)
    requires NoTies(key, s) && s != []
    ensures NoTies(key, s[1..])
  {
    assert forall x :: x in s[1..] ==> x in s;
  }

  lemma SameFirst<T(!new)>(key: T -> seq<string>, a: seq<T>, b: seq<T>)
    requires a != [] && b != [] && multiset(a) == multiset(b) && NoTies(key, a)
    requires forall i :: 0 < i < |a| ==> By(key)(a[0], a[i])
    requires forall i :: 0 < i < |b| ==> By(key)(b[0], b[i])
    ensures a[0] == b[0]
  {
    hide KeyBefore;
    KeysOrder();
    assert a[0] in multiset(a) && b[0] in multiset(b);
    var i :| 0 <= i < |b| && b[i] == a[0];
    var j :| 0 <= j < |a| && a[j] == b[0];
    assert i > 0 ==> By(key)(b[0], a[0]);
    assert j > 0 ==> By(key)(a[0], b[0]);
  }

  lemma TiesSwap<T(!new)>(key: T -> seq<string>, s: seq<T>, r: seq<T>, i: nat, j: nat) returns (t: seq<T>)
    requires IsSortOf(key, s, r) && i < |r| && j < |r| && key(r[i]) == key(r[j]) && r[i] != r[j]
    ensures IsSortOf(key, s, t) && t != r
  {
    hide KeyBefore;
    t := r[i := r[j]][j := r[i]];
    assert multiset(t) == multiset(r);
    assert forall k :: 0 <= k < |r| ==> key(t[k]) == key(r[k]);
    forall k, l | 0 <= k < l < |t| ensures By(key)(t[k], t[l]) {
      assert By(key)(r[k], r[l]);
    }
    assert t[i] != r[i];
  }

  /** A sort by key fixes the list exactly if no two different elements have the same key. */
  lemma SortIsDeterminedIff<T(!new)>(key: T -> seq<string>, s: seq<T>)
    ensures (forall a, b :: IsSortOf(key, s, a) && IsSortOf(key, s, b) ==> a == b) <==> NoTies(key, s)
  {
    hide By, NoTies;
    if NoTies(key, s) {
      forall a, b | IsSortOf(key, s, a) && IsSortOf(key, s, b) ensures a == b {
        NoTiesKept(key, s, a);
        SortsAgree(key, a, b);
      }
    } else {
      var r := Sort.Sorted(By(key), s);
      SortedIsSort(key, s);
      var i, j := FindTie(key, s, r);
      var t := TiesSwap(key, s, r, i, j);
    }
  }

  lemma NoTiesKept<T(!new)>(key: T -> seq<string>, s: seq<T>, r: seq<T>)
    requires NoTies(key, s) && IsSortOf(key, s, r)
    ensures NoTies(key, r)
  {
    SortKeeps(key, s, r);
  }

  lemma FindTie<T(!new)>(key: T -> seq<string>, s: seq<T>, r: seq<T>) returns (i: nat, j: nat)
    requires !NoTies(key, s) && IsSortOf(key, s, r)
    ensures i < |r| && j < |r| && key(r[i]) == key(r[j]) && r[i] != r[j]
  {
    hide IsSortOf;
    SortKeeps(key, s, r);
    var x, y :| x in s && y in s && key(x) == key(y) && x != y;
    assert x in r && y in r;
    i :| 0 <= i < |r| && r[i] == x;
    j :| 0 <= j < |r| && r[j] == y;
  }
}
