/** Insertion into a list ordered by a total preorder, and the stable sort it gives. */
module StableSort {

  type Order<!T> = (T, T) -> bool

  ghost predicate IsOrder<T(!new)>(le: Order<T>) {
    && (forall x, y :: le(x, y) || le(y, x))
    && (forall x, y, z :: le(x, y) && le(y, z) ==> le(x, z))
  }

  ghost predicate Ordered<T>(le: Order<T>, s: seq<T>) {
    forall i, j :: 0 <= i < j < |s| ==> le(s[i], s[j])
  }

  /** Behind everything that need not come after it. */
  function Insert<T>(le: Order<T>, e: T, s: seq<T>): (r: seq<T>) {
    if s == [] || le(s[|s| - 1], e) then s + [e] else Insert(le, e, s[..|s| - 1]) + [s[|s| - 1]]
  }

  function Sorted<T>(le: Order<T>, s: seq<T>): (r: seq<T>) {
    if s == [] then [] else Insert(le, s[|s| - 1], Sorted(le, s[..|s| - 1]))
  }

  function Filter<T>(p: T -> bool, s: seq<T>): (r: seq<T>) {
    if s == [] then []
    else
      var init := Filter(p, s[..|s| - 1]);
      if p(s[|s| - 1]) then init + [s[|s| - 1]] else init
  }

  lemma FilterAppend<T>(p: T -> bool, s: seq<T>, e: T)
    ensures Filter(p, s + [e]) == if p(e) then Filter(p, s) + [e] else Filter(p, s)
  {
    assert (s + [e])[..|s|] == s;
  }

  lemma {:induction false} InsertKeeps<T>(le: Order<T>, e: T, s: seq<T>)
    ensures multiset(Insert(le, e, s)) == multiset(s) + multiset{e}
  {
    if s != [] && !le(s[|s| - 1], e) {
      InsertKeeps(le, e, s[..|s| - 1]);
      assert s == s[..|s| - 1] + [s[|s| - 1]];
    }
  }

  lemma {:induction false} InsertOrders<T(!new)>(le: Order<T>, e: T, s: seq<T>, bound: T)
    requires IsOrder(le) && Ordered(le, s) && le(e, bound) && (s == [] || le(s[|s| - 1], bound))
    ensures Ordered(le, Insert(le, e, s))
    ensures forall i :: 0 <= i < |Insert(le, e, s)| ==> le(Insert(le, e, s)[i], bound)
  {
    if s == [] || le(s[|s| - 1], e) {
      forall i | 0 <= i < |s| ensures le(s[i], e) && le(s[i], bound) {
        assert i < |s| - 1 ==> le(s[i], s[|s| - 1]);
      }
    } else {
      var l := s[|s| - 1];
      assert le(e, l);
      assert |s| > 1 ==> le(s[|s| - 2], l);
      InsertOrders(le, e, s[..|s| - 1], l);
      var r := Insert(le, e, s[..|s| - 1]);
      assert forall i :: 0 <= i < |r| ==> le(r[i], l) && le(r[i], bound);
    }
  }

  /** Sorting keeps the elements... */
  lemma {:induction false} SortedKeeps<T>(le: Order<T>, s: seq<T>)
    ensures multiset(Sorted(le, s)) == multiset(s)
  {
    hide Insert;
    if s != [] {
      SortedKeeps(le, s[..|s| - 1]);
      InsertKeeps(le, s[|s| - 1], Sorted(le, s[..|s| - 1]));
      assert s == s[..|s| - 1] + [s[|s| - 1]];
    }
  }

  /** ...and orders them. */
  lemma {:induction false} SortedOrders<T(!new)>(le: Order<T>, s: seq<T>)
    requires IsOrder(le)
    ensures Ordered(le, Sorted(le, s))
  {
    hide Insert;
    if s != [] {
      var init, e := Sorted(le, s[..|s| - 1]), s[|s| - 1];
      SortedOrders(le, s[..|s| - 1]);
      assert le(e, e);
      if init == [] || le(init[|init| - 1], e) {
        InsertOrders(le, e, init, e);
      } else {
        assert le(e, init[|init| - 1]) && le(init[|init| - 1], init[|init| - 1]);
        InsertOrders(le, e, init, init[|init| - 1]);
      }
    }
  }

  lemma LastKept<T>(p: T -> bool, s: seq<T>, l: T)
    ensures p(l) ==> exists i :: 0 <= i < |Filter(p, s + [l])| && Filter(p, s + [l])[i] == l
  {
    hide Filter;
    FilterAppend(p, s, l);
    if p(l) { assert Filter(p, s + [l])[|Filter(p, s)|] == l; }
  }

  lemma {:induction false} InsertFilter<T(!new)>(le: Order<T>, e: T, s: seq<T>, p: T -> bool)
    requires p(e) ==> forall i :: 0 <= i < |Filter(p, s)| ==> le(Filter(p, s)[i], e)
    ensures Filter(p, Insert(le, e, s)) == Filter(p, s + [e])
  {
    hide Filter;
    FilterAppend(p, s, e);
    if s != [] && !le(s[|s| - 1], e) {
      var init, l := s[..|s| - 1], s[|s| - 1];
      assert s == init + [l];
      FilterAppend(p, init, l);
      if p(e) {
        assert !p(l) by { LastKept(p, init, l); }
        assert Filter(p, s) == Filter(p, init);
      }
      InsertFilter(le, e, init, p);
      FilterAppend(p, init, e);
      FilterAppend(p, Insert(le, e, init), l);
    }
  }

  lemma {:induction false} FilterOrdered<T>(le: Order<T>, p: T -> bool, s: seq<T>, e: T)
    requires Ordered(le, Filter(p, s + [e]))
    ensures Ordered(le, Filter(p, s))
    ensures p(e) ==> forall i :: 0 <= i < |Filter(p, s)| ==> le(Filter(p, s)[i], e)
  {
    hide Filter;
    FilterAppend(p, s, e);
    var r, t := Filter(p, s), Filter(p, s + [e]);
    assert forall i :: 0 <= i < |r| ==> t[i] == r[i];
    if p(e) {
      forall i | 0 <= i < |r| ensures le(r[i], e) {
        assert t[i] == r[i] && t[|r|] == e && le(t[i], t[|r|]);
      }
    }
  }

  /** Elements that were in order among themselves, ties included, stay in that order. */
  lemma {:induction false} SortedIsStable<T(!new)>(le: Order<T>, s: seq<T>, p: T -> bool)
    requires Ordered(le, Filter(p, s))
    ensures Filter(p, Sorted(le, s)) == Filter(p, s)
  {
    hide Filter, Insert;
    if s != [] {
      var init, e := s[..|s| - 1], s[|s| - 1];
      assert s == init + [e];
      FilterOrdered(le, p, init, e);
      SortedIsStable(le, init, p);
      InsertFilter(le, e, Sorted(le, init), p);
      FilterAppend(p, init, e);
      FilterAppend(p, Sorted(le, init), e);
    } else {
      assert Sorted(le, s) == s;
    }
  }
}
