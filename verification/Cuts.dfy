/** Cutting a list into groups exactly where the next element does not join the group before it. */
module Cuts {

  type Joining<!T> = (seq<T>, T) -> bool

  function Joined<T>(gs: seq<seq<T>>): (es: seq<T>) {
    if gs == [] then [] else Joined(gs[..|gs| - 1]) + gs[|gs| - 1]
  }

  ghost predicate Whole<T>(joins: Joining<T>, g: seq<T>) {
    g != [] && forall i :: 0 < i < |g| ==> joins(g[..i], g[i])
  }

  ghost predicate Apart<T>(joins: Joining<T>, g: seq<T>, h: seq<T>) {
    h != [] && !joins(g, h[0])
  }

  ghost predicate IsCut<T>(joins: Joining<T>, es: seq<T>, gs: seq<seq<T>>) {
    && Joined(gs) == es
    && (forall k :: 0 <= k < |gs| ==> Whole(joins, gs[k]))
    && (forall k :: 0 < k < |gs| ==> Apart(joins, gs[k - 1], gs[k]))
  }

  lemma JoinedAppend<T>(gs: seq<seq<T>>, g: seq<T>)
    ensures Joined(gs + [g]) == Joined(gs) + g
  {
    assert (gs + [g])[..|gs|] == gs;
  }

  lemma NoCut<T>(joins: Joining<T>)
    ensures IsCut(joins, [], [])
  {
  }

  lemma GroupsAreFull<T>(joins: Joining<T>, es: seq<T>, gs: seq<seq<T>>)
    requires IsCut(joins, es, gs) && gs != []
    ensures gs[|gs| - 1] != []
  {
  }

  lemma Extend<T>(joins: Joining<T>, es: seq<T>, gs: seq<seq<T>>, e: T)
    requires IsCut(joins, es, gs) && gs != [] && joins(gs[|gs| - 1], e)
    ensures IsCut(joins, es + [e], gs[..|gs| - 1] + [gs[|gs| - 1] + [e]])
  {
    hide Joined;
    var k := |gs| - 1;
    var more := gs[..k] + [gs[k] + [e]];
    assert gs == gs[..k] + [gs[k]];
    JoinedAppend(gs[..k], gs[k]);
    JoinedAppend(gs[..k], gs[k] + [e]);
    assert Joined(more) == es + [e];
    LongerIsWhole(joins, gs[k], e);
  }

  lemma LongerIsWhole<T>(joins: Joining<T>, g: seq<T>, e: T)
    requires Whole(joins, g) && joins(g, e)
    ensures Whole(joins, g + [e]) && (g + [e])[0] == g[0]
  {
    forall i | 0 < i < |g + [e]| ensures joins((g + [e])[..i], (g + [e])[i]) {
      if i < |g| { assert (g + [e])[..i] == g[..i]; } else { assert (g + [e])[..i] == g; }
    }
  }

  lemma Open<T>(joins: Joining<T>, es: seq<T>, gs: seq<seq<T>>, e: T)
    requires IsCut(joins, es, gs) && (gs != [] ==> !joins(gs[|gs| - 1], e))
    ensures IsCut(joins, es + [e], gs + [[e]])
  {
    hide Joined;
    JoinedAppend(gs, [e]);
  }

  lemma NothingJoined<T>(gs: seq<seq<T>>)
    ensures gs == [] ==> Joined(gs) == []
    ensures gs != [] && gs[|gs| - 1] != [] ==> Joined(gs) != []
  {
  }

  /** The groups without the last element. */
  function Trimmed<T>(gs: seq<seq<T>>): (r: seq<seq<T>>)
    requires gs != [] && gs[|gs| - 1] != []
  {
    var k := |gs| - 1;
    var g := gs[k];
    if |g| == 1 then gs[..k] else gs[..k] + [g[..|g| - 1]]
  }

  lemma ShorterIsWhole<T>(joins: Joining<T>, g: seq<T>)
    requires Whole(joins, g) && |g| > 1
    ensures Whole(joins, g[..|g| - 1]) && joins(g[..|g| - 1], g[|g| - 1])
  {
    var h := g[..|g| - 1];
    forall i | 0 < i < |h| ensures joins(h[..i], h[i]) {
      assert h[..i] == g[..i] && h[i] == g[i];
    }
  }

  lemma Shorter<T>(joins: Joining<T>, es: seq<T>, gs: seq<seq<T>>)
    requires IsCut(joins, es, gs) && gs != []
    ensures gs[|gs| - 1] != [] && es != [] && es[|es| - 1] == gs[|gs| - 1][|gs[|gs| - 1]| - 1]
    ensures IsCut(joins, es[..|es| - 1], Trimmed(gs))
  {
    hide Joined;
    var k := |gs| - 1;
    var g := gs[k];
    assert Whole(joins, g);
    assert gs == gs[..k] + [g];
    JoinedAppend(gs[..k], g);
    assert es == Joined(gs[..k]) + g;
    if |g| == 1 {
      assert es[..|es| - 1] == Joined(gs[..k]);
    } else {
      ShorterIsWhole(joins, g);
      JoinedAppend(gs[..k], g[..|g| - 1]);
      assert es[..|es| - 1] == Joined(gs[..k]) + g[..|g| - 1];
    }
  }

  /** How the last element sits in the groups is decided by whether it joins the last of the others. */
  lemma LastOf<T>(joins: Joining<T>, es: seq<T>, gs: seq<seq<T>>)
    requires IsCut(joins, es, gs) && gs != [] && gs[|gs| - 1] != []
    ensures var g := gs[|gs| - 1];
      var e, t := g[|g| - 1], Trimmed(gs);
      gs == if t != [] && joins(t[|t| - 1], e) then t[..|t| - 1] + [t[|t| - 1] + [e]] else t + [[e]]
  {
    hide Joined;
    var k := |gs| - 1;
    var g := gs[k];
    assert Whole(joins, g) && gs == gs[..k] + [g];
    if |g| == 1 {
      assert g == [g[0]];
      if k > 0 { assert Apart(joins, gs[k - 1], g); }
    } else {
      ShorterIsWhole(joins, g);
      assert g == g[..|g| - 1] + [g[|g| - 1]];
      assert Trimmed(gs)[..k] == gs[..k];
    }
  }

  /** There is only one way to cut a list like this. */
  lemma {:induction false} CutIsUnique<T>(joins: Joining<T>, es: seq<T>, gs: seq<seq<T>>, hs: seq<seq<T>>)
    requires IsCut(joins, es, gs) && IsCut(joins, es, hs)
    ensures gs == hs
    decreases |es|
  {
    hide Joined;
    NothingJoined(gs);
    NothingJoined(hs);
    if gs != [] && hs != [] {
      Shorter(joins, es, gs);
      Shorter(joins, es, hs);
      CutIsUnique(joins, es[..|es| - 1], Trimmed(gs), Trimmed(hs));
      LastOf(joins, es, gs);
      LastOf(joins, es, hs);
    } else if gs != [] {
      GroupsAreFull(joins, es, gs);
    } else if hs != [] {
      GroupsAreFull(joins, es, hs);
    }
  }
}
