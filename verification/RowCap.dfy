/** Capping a table at a number of rows per mechanism: every strong row, then an even sample of the rest. */
module RowCap {
  import opened EventLog

  predicate IsStrong(e: Event) { e.sev in {"med", "high", "mark"} }

  ghost predicate Increasing(ps: seq<nat>) { forall i, j :: 0 <= i < j < |ps| ==> ps[i] < ps[j] }

  ghost predicate Within(ps: seq<nat>, n: nat) { forall i :: 0 <= i < |ps| ==> ps[i] < n }

  /** Where the events of a mechanism stand. */
  function Places(es: seq<Event>, m: string): (ps: seq<nat>)
    ensures Increasing(ps) && Within(ps, |es|)
  {
    if es == [] then []
    else
      var k := |es| - 1;
      var ps := Places(es[..k], m);
      if es[k].mech == m then ps + [k] else ps
  }

  /** The places with strong or with weak events. */
  function Pick(es: seq<Event>, ps: seq<nat>, strong: bool): (r: seq<nat>)
    requires Increasing(ps) && Within(ps, |es|)
    ensures Increasing(r) && Within(r, |es|)
    ensures forall p :: p in r <==> p in ps && IsStrong(es[p]) == strong
  {
    if ps == [] then []
    else
      var k := |ps| - 1;
      var r := Pick(es, ps[..k], strong);
      assert forall p :: p in ps <==> p in ps[..k] || p == ps[k];
      assert forall i :: 0 <= i < |r| ==> r[i] in ps[..k];
      assert forall p :: p in ps[..k] ==> p < ps[k];
      if IsStrong(es[ps[k]]) == strong then r + [ps[k]] else r
  }

  lemma {:induction false} PickSplits(es: seq<Event>, ps: seq<nat>)
    requires Increasing(ps) && Within(ps, |es|)
    ensures |Pick(es, ps, true)| + |Pick(es, ps, false)| == |ps|
  {
    if ps != [] { PickSplits(es, ps[..|ps| - 1]); }
  }

  lemma Positive(d: int, x: int)
    requires d > 0 && d * x > 0
    ensures x > 0
  {
  }

  lemma Further(x: nat, y: nat, d: nat)
    requires d > 0 && y >= x + d
    ensures x / d < y / d
  {
    var a, b := x / d, y / d;
    assert d * a <= x && y < d * b + d;
    assert d * (b - a) == d * b - d * a;
    Positive(d, b - a);
  }

  lemma NextMultiple(i: nat, j: nat, size: nat)
    requires i < j
    ensures j * size >= i * size + size
  {
    var d := j - i - 1;
    assert j * size == (i + 1 + d) * size == i * size + size + d * size;
  }

  function SampleAt(i: nat, room: nat, size: nat): (at: nat)
    requires room > 0
  {
    i * size / room
  }

  /** The sampled positions rise strictly and stay in the list, when it has at least as many as are wanted. */
  lemma SampleGrows(i: nat, j: nat, room: nat, size: nat)
    requires i < j <= room <= size && room > 0
    ensures SampleAt(i, room, size) < SampleAt(j, room, size) <= size
  {
    NextMultiple(i, j, size);
    Further(i * size, j * size, room);
    assert j * size <= room * size by { if j < room { NextMultiple(j, room, size); } }
    WholeQuotient(room, size, j * size);
  }

  lemma WholeQuotient(d: nat, q: nat, x: nat)
    requires d > 0 && x <= d * q
    ensures x / d <= q
  {
    var y := x / d;
    assert d * y <= x;
    assert d * (q + 1 - y) == d * q + d - d * y;
    Positive(d, q + 1 - y);
  }

  /** An even sample of `room` of the places. */
  function Sample(weak: seq<nat>, room: nat): (r: seq<nat>)
    requires room <= |weak|
    ensures |r| == room
  {
    seq(room, i requires 0 <= i < room => SampleGrows(i, room, room, |weak|); weak[SampleAt(i, room, |weak|)])
  }

  lemma SampleIsDistinct(weak: seq<nat>, room: nat)
    requires Increasing(weak) && room <= |weak|
    ensures Increasing(Sample(weak, room)) && forall p :: p in Sample(weak, room) ==> p in weak
  {
    hide SampleAt;
    var r := Sample(weak, room);
    forall i, j | 0 <= i < j < room ensures r[i] < r[j] {
      SampleGrows(i, j, room, |weak|);
      SampleGrows(j, room, room, |weak|);
    }
    forall i | 0 <= i < room ensures r[i] in weak {
      SampleGrows(i, room, room, |weak|);
    }
  }

  // ---- what is kept ----

  function Max0(n: int): (r: nat) { if n > 0 then n else 0 }

  /** All places of a mechanism that is within the cap; otherwise the strong ones and a sample of the weak ones. */
  function Chosen(es: seq<Event>, m: string, cap: int): (r: seq<nat>) { ChosenFrom(es, Places(es, m), cap) }

  function ChosenFrom(es: seq<Event>, ps: seq<nat>, cap: int): (r: seq<nat>)
    requires Increasing(ps) && Within(ps, |es|)
  {
    if |ps| <= cap then ps
    else
      PickSplits(es, ps);
      var strong, weak := Pick(es, ps, true), Pick(es, ps, false);
      strong + Sample(weak, Max0(cap - |strong|))
  }

  ghost predicate NoRepeats(ps: seq<nat>) { forall i, j :: 0 <= i < j < |ps| ==> ps[i] != ps[j] }

  /** The choice: places of the mechanism, each once, all the strong ones, and as many as the cap allows. */
  lemma ChosenIsRight(es: seq<Event>, m: string, cap: int)
    ensures var ps, r := Places(es, m), Chosen(es, m, cap);
      && NoRepeats(r) && (forall p :: p in r ==> p in ps)
      && (forall p :: p in ps && IsStrong(es[p]) ==> p in r)
      && |r| == if |ps| <= cap then |ps| else |Pick(es, ps, true)| + Max0(cap - |Pick(es, ps, true)|)
  {
    hide Places, Pick, Sample;
    var ps := Places(es, m);
    if |ps| > cap {
      PickSplits(es, ps);
      var strong, weak := Pick(es, ps, true), Pick(es, ps, false);
      var room := Max0(cap - |strong|);
      SampleIsDistinct(weak, room);
      var sample := Sample(weak, room);
      assert forall i :: 0 <= i < |strong| ==> strong[i] in strong;
      assert forall i :: 0 <= i < |sample| ==> sample[i] in sample;
      forall i, j | 0 <= i < j < |strong + sample| ensures (strong + sample)[i] != (strong + sample)[j] {
        if i < |strong| <= j { assert IsStrong(es[strong[i]]) && !IsStrong(es[sample[j - |strong|]]); }
      }
    }
  }

  /** The rows at the kept places, in their order. */
  function Select(es: seq<Event>, keep: set<nat>): (rows: seq<Event>) {
    if es == [] then []
    else
      var k := |es| - 1;
      if k in keep then Select(es[..k], keep) + [es[k]] else Select(es[..k], keep)
  }

  function CountIn(ps: seq<nat>, keep: set<nat>): (n: nat) {
    if ps == [] then 0 else CountIn(ps[..|ps| - 1], keep) + if ps[|ps| - 1] in keep then 1 else 0
  }

  /** How many rows of a mechanism are selected is how many of its places are kept. */
  lemma {:induction false} SelectCounts(es: seq<Event>, keep: set<nat>, m: string)
    ensures |OfMech(Select(es, keep), m)| == CountIn(Places(es, m), keep)
    ensures |OfMech(es, m)| == |Places(es, m)|
  {
    hide OfMech, CountIn;
    if es == [] {
      NothingThere(keep, m);
    } else {
      var k := |es| - 1;
      var init := es[..k];
      SelectCounts(init, keep, m);
      assert es == init + [es[k]];
      OfMechAppend(init, es[k], m);
      OfMechAppend(Select(init, keep), es[k], m);
      CountInAppend(Places(init, m), k, keep);
    }
  }

  lemma NothingThere(keep: set<nat>, m: string)
    ensures OfMech([], m) == [] && CountIn([], keep) == 0
  {
  }

  lemma CountInAppend(ps: seq<nat>, p: nat, keep: set<nat>)
    ensures CountIn(ps + [p], keep) == CountIn(ps, keep) + if p in keep then 1 else 0
  {
    assert (ps + [p])[..|ps|] == ps;
  }

  ghost function Kept(ps: seq<nat>, keep: set<nat>): (s: set<nat>) { set p | p in ps && p in keep }

  lemma {:induction false} CountIsSize(ps: seq<nat>, keep: set<nat>)
    requires Increasing(ps)
    ensures CountIn(ps, keep) == |Kept(ps, keep)|
  {
    if ps != [] {
      var k := |ps| - 1;
      var init := ps[..k];
      CountIsSize(init, keep);
      assert forall p :: p in ps <==> p in init || p == ps[k];
      assert ps[k] !in init;
      assert Kept(ps, keep) == if ps[k] in keep then Kept(init, keep) + {ps[k]} else Kept(init, keep);
    }
  }

  function Elements(r: seq<nat>): (s: set<nat>) { set p | p in r }

  lemma {:induction false} SizeOfDistinct(r: seq<nat>)
    requires NoRepeats(r)
    ensures |Elements(r)| == |r|
  {
    if r != [] {
      var k := |r| - 1;
      SizeOfDistinct(r[..k]);
      assert Elements(r) == Elements(r[..k]) + {r[k]};
      assert r[k] !in r[..k];
    }
  }

  // ---- the method ----

  method ByMechanism(es: seq<Event>) returns (groups: map<string, seq<nat>>)
    ensures forall m :: m in groups <==> Places(es, m) != []
    ensures forall m :: m in groups ==> groups[m] == Places(es, m)
  {
    groups := map[];
    var i := 0;
    while i < |es|
      invariant 0 <= i <= |es|
      invariant forall m :: m in groups <==> Places(es[..i], m) != []
      invariant forall m :: m in groups ==> groups[m] == Places(es[..i], m)
    {
      assert es[..i + 1][..i] == es[..i];
      var m := es[i].mech;
      groups := groups[m := (if m in groups then groups[m] else []) + [i]];
      i := i + 1;
    }
    assert es[..i] == es;
  }

  /** What the cap promises of each mechanism, over the rows it returns. */
  ghost predicate Capped(es: seq<Event>, cap: int, rows: seq<Event>, omitted: map<string, nat>, m: string) {
    var ps := Places(es, m);
    var strong := |Pick(es, ps, true)|;
    && |OfMech(rows, m)| == (if |ps| <= cap then |ps| else strong + Max0(cap - strong))
    && (m in omitted <==> |ps| > cap && ps != [])
    && (m in omitted ==> omitted[m] == |OfMech(es, m)| - |OfMech(rows, m)|)
  }

  /** Every strong row, and every row of a mechanism within the cap. */
  ghost predicate MustKeep(es: seq<Event>, cap: int, p: nat)
    requires p < |es|
  {
    IsStrong(es[p]) || |Places(es, es[p].mech)| <= cap
  }

  /** The places to keep, and how many each mechanism over the cap loses. */
  method ChooseRows(es: seq<Event>, cap: int) returns (kept: set<nat>, omitted: map<string, nat>)
    ensures forall p: nat :: p in kept <==> p < |es| && p in Chosen(es, es[p].mech, cap)
    ensures forall m :: m in omitted <==> |Places(es, m)| > cap && Places(es, m) != []
    ensures forall m :: m in omitted ==> omitted[m] == |Places(es, m)| - |Chosen(es, m, cap)|
  {
    hide Places, Pick, ChosenFrom;
    var groups := ByMechanism(es);
    kept, omitted := {}, map[];
    var todo := groups.Keys;
    while todo != {}
      invariant todo <= groups.Keys
      invariant forall p: nat :: p in kept <==> p < |es| && es[p].mech in groups.Keys - todo && p in Chosen(es, es[p].mech, cap)
      invariant forall m :: m in omitted <==> m in groups.Keys - todo && |Places(es, m)| > cap
      invariant forall m :: m in omitted ==> omitted[m] == |Places(es, m)| - |Chosen(es, m, cap)|
      decreases |todo|
    {
      var m :| m in todo;
      var chosen := ChosenFrom(es, groups[m], cap);
      ChosenIsRight(es, m, cap);
      PlacesAre(es, m);
      ChosenSize(es, m, cap);
      kept := kept + Elements(chosen);
      if |groups[m]| > cap { omitted := omitted[m := |groups[m]| - |chosen|]; }
      todo := todo - {m};
    }
    forall p: nat | p < |es| ensures es[p].mech in groups {
      PlacesAre(es, es[p].mech);
    }
  }

  method CapRows(es: seq<Event>, cap: int) returns (rows: seq<Event>, omitted: map<string, nat>, ghost keep: set<nat>)
    ensures rows == Select(es, keep)
    ensures forall p: nat :: p in keep <==> p < |es| && p in Chosen(es, es[p].mech, cap)
    ensures forall p :: 0 <= p < |es| && MustKeep(es, cap, p) ==> p in keep
    ensures forall m :: Capped(es, cap, rows, omitted, m)
  {
    hide Places, Pick, Chosen, Select;
    var kept;
    kept, omitted := ChooseRows(es, cap);
    keep := kept;
    rows := Select(es, kept);
    forall p | 0 <= p < |es| && MustKeep(es, cap, p) ensures p in keep {
      PlacesAre(es, es[p].mech);
      ChosenIsRight(es, es[p].mech, cap);
      AllWithinCap(es, es[p].mech, cap);
    }
    forall m ensures Capped(es, cap, rows, omitted, m) {
      PlacesAre(es, m);
      ChosenIsRight(es, m, cap);
      KeptAreChosen(es, m, cap, kept);
    }
  }

  lemma {:induction false} PlacesAre(es: seq<Event>, m: string)
    ensures forall p: nat :: p in Places(es, m) <==> p < |es| && es[p].mech == m
  {
    if es != [] {
      var k := |es| - 1;
      PlacesAre(es[..k], m);
      assert forall p :: 0 <= p < k ==> es[..k][p] == es[p];
    }
  }

  lemma ChosenSize(es: seq<Event>, m: string, cap: int)
    ensures |Chosen(es, m, cap)| <= |Places(es, m)|
  {
    hide Places, Pick, Sample;
    PickSplits(es, Places(es, m));
  }

  lemma AllWithinCap(es: seq<Event>, m: string, cap: int)
    ensures |Places(es, m)| <= cap ==> Chosen(es, m, cap) == Places(es, m)
  {
  }

  lemma KeptAreChosen(es: seq<Event>, m: string, cap: int, kept: set<nat>)
    requires forall p :: p in Places(es, m) ==> (p in kept <==> p in Chosen(es, m, cap))
    ensures |OfMech(Select(es, kept), m)| == |Chosen(es, m, cap)| && |OfMech(es, m)| == |Places(es, m)|
  {
    hide Places, Chosen, Select, OfMech, CountIn;
    var ps, r := Places(es, m), Chosen(es, m, cap);
    SelectCounts(es, kept, m);
    CountIsSize(ps, kept);
    ChosenIsRight(es, m, cap);
    SizeOfDistinct(r);
    assert Kept(ps, kept) == Elements(r);
  }
}
