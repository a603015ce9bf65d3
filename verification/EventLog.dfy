/** The rows of the stream analyser's timeline: events in order, bursts collapsed, causes first. */
module EventLog {
  import opened Options
  import opened Cuts
  import Sort = StableSort

  /** A logged event; times in microseconds, `n` the number of lines it stands for. */
  datatype Event = Event(ts: int, tsEnd: int, mech: string, sev: string, src: string, text: string, n: nat, key: Option<string>)

  const NoCollapse := {
    "mark", "session", "spindump", "obs-encode", "obs-render", "obs-output", "obs-crash", "memory", "watchdog", "thermal",
    "hal-timeout", "hal-overload", "hal-pagefault", "dvs-rescan", "vm-bridge", "wifi"}

  /** How far apart two events of a mechanism may be and still collapse. */
  function Window(mech: string): (w: nat) {
    if mech == "jetsam" then 30000000
    else if mech == "route" then 10000000
    else if mech in {"nic-usb", "ark", "dvs-error", "awdl"} then 5000000
    else 1000000
  }

  function RouteKey(e: Event): (k: string) {
    if e.key.Some? && e.key.value != "" then e.key.value else e.text
  }

  predicate Merges(prev: Event, e: Event) {
    && e.mech !in NoCollapse && prev.sev == e.sev && e.ts - prev.tsEnd <= Window(e.mech)
    && (e.mech != "route" || RouteKey(prev) == RouteKey(e))
  }

  function Absorb(prev: Event, e: Event): (r: Event) {
    prev.(n := prev.n + e.n, tsEnd := e.ts)
  }

  // ---- one mechanism at a time ----

  function OfMech(es: seq<Event>, m: string): (r: seq<Event>) {
    if es == [] then []
    else
      var init, e := OfMech(es[..|es| - 1], m), es[|es| - 1];
      if e.mech == m then init + [e] else init
  }

  /** Consecutive events of one mechanism, each merged into the row before it or opening the next one. */
  function Chain(es: seq<Event>): (rows: seq<Event>) {
    if es == [] then []
    else
      var rows, e := Chain(es[..|es| - 1]), es[|es| - 1];
      if rows != [] && Merges(rows[|rows| - 1], e) then rows[..|rows| - 1] + [Absorb(rows[|rows| - 1], e)] else rows + [e]
  }

  function Total(es: seq<Event>): (n: nat) {
    if es == [] then 0 else Total(es[..|es| - 1]) + es[|es| - 1].n
  }

  lemma TotalAppend(es: seq<Event>, e: Event)
    ensures Total(es + [e]) == Total(es) + e.n
  {
    assert (es + [e])[..|es|] == es;
  }

  /** Collapsing a mechanism keeps its number of lines... */
  lemma {:induction false} ChainConserves(es: seq<Event>)
    ensures Total(Chain(es)) == Total(es)
  {
    hide Merges, Chain, Total;
    if es == [] {
      NoChain();
    } else {
      var init, e := es[..|es| - 1], es[|es| - 1];
      ChainConserves(init);
      var rows := Chain(init);
      assert es == init + [e];
      ChainAppend(init, e);
      TotalAppend(init, e);
      if rows != [] && Merges(rows[|rows| - 1], e) {
        var k := |rows| - 1;
        assert rows == rows[..k] + [rows[k]];
        TotalAppend(rows[..k], rows[k]);
        TotalAppend(rows[..k], Absorb(rows[k], e));
      } else {
        TotalAppend(rows, e);
      }
    }
  }

  /** ...and never merges the ones that must not be. */
  lemma {:induction false} ChainKeepsApart(es: seq<Event>)
    requires forall i :: 0 <= i < |es| ==> es[i].mech in NoCollapse
    ensures Chain(es) == es
  {
    hide Merges, Chain;
    if es == [] {
      NoChain();
    } else {
      var init, e := es[..|es| - 1], es[|es| - 1];
      ChainKeepsApart(init);
      assert es == init + [e];
      ChainAppend(init, e);
      if init != [] { OnlyCollapsible(init[|init| - 1], e); }
    }
  }

  lemma NoChain()
    ensures Chain([]) == [] && Total([]) == 0
  {
  }

  lemma OnlyCollapsible(prev: Event, e: Event)
    ensures Merges(prev, e) ==> e.mech !in NoCollapse
  {
  }

  /** The place of the latest row of a mechanism. */
  ghost predicate IsLast(out: seq<Event>, m: string, k: nat) {
    k < |out| && out[k].mech == m && forall j :: k < j < |out| ==> out[j].mech != m
  }

  ghost predicate LastRows(out: seq<Event>, last: map<string, nat>) {
    && (forall m :: m in last ==> IsLast(out, m, last[m]))
    && (forall j :: 0 <= j < |out| ==> out[j].mech in last)
  }

  lemma OfMechAppend(es: seq<Event>, e: Event, m: string)
    ensures OfMech(es + [e], m) == if e.mech == m then OfMech(es, m) + [e] else OfMech(es, m)
    ensures Total(OfMech(es + [e], m)) == Total(OfMech(es, m)) + if e.mech == m then e.n else 0
  {
    hide Total;
    assert (es + [e])[..|es|] == es;
    TotalAppend(OfMech(es, m), e);
  }

  lemma ChainAppend(es: seq<Event>, e: Event)
    ensures var rows := Chain(es);
      Chain(es + [e]) == if rows != [] && Merges(rows[|rows| - 1], e)
                         then rows[..|rows| - 1] + [Absorb(rows[|rows| - 1], e)] else rows + [e]
  {
    hide Merges, Absorb;
    assert (es + [e])[..|es|] == es;
  }

  lemma {:induction false} OfMechEmpty(out: seq<Event>, m: string)
    requires forall j :: 0 <= j < |out| ==> out[j].mech != m
    ensures OfMech(out, m) == []
  {
    if out != [] { OfMechEmpty(out[..|out| - 1], m); }
  }

  /** Changing the latest row of a mechanism changes the last of that mechanism's rows and nothing else. */
  lemma {:induction false} OfMechUpdate(out: seq<Event>, k: nat, x: Event, m: string)
    requires k < |out| && IsLast(out, out[k].mech, k) && x.mech == out[k].mech
    ensures var rows := OfMech(out, m);
      if m == x.mech then rows != [] && rows[|rows| - 1] == out[k] && OfMech(out[k := x], m) == rows[..|rows| - 1] + [x]
      else OfMech(out[k := x], m) == rows
  {
    var init, e := out[..|out| - 1], out[|out| - 1];
    assert out == init + [e];
    OfMechAppend(init, e, m);
    if k == |out| - 1 {
      assert out[k := x] == init + [x];
      OfMechAppend(init, x, m);
    } else {
      assert out[k := x] == init[k := x] + [e];
      OfMechAppend(init[k := x], e, m);
      OfMechUpdate(init, k, x, m);
    }
  }

  ghost predicate Collapsed(es: seq<Event>, out: seq<Event>) {
    forall m :: OfMech(out, m) == Chain(OfMech(es, m))
  }

  lemma AppendRow(es: seq<Event>, out: seq<Event>, e: Event)
    requires Collapsed(es, out)
    requires var rows := OfMech(out, e.mech); rows == [] || !Merges(rows[|rows| - 1], e)
    ensures Collapsed(es + [e], out + [e])
  {
    hide Merges, Chain, OfMech, Absorb, Total;
    forall m ensures OfMech(out + [e], m) == Chain(OfMech(es + [e], m)) {
      OfMechAppend(es, e, m);
      OfMechAppend(out, e, m);
      assert OfMech(out, m) == Chain(OfMech(es, m));
      ChainAppend(OfMech(es, m), e);
    }
  }

  lemma MergeRow(es: seq<Event>, out: seq<Event>, e: Event, k: nat)
    requires Collapsed(es, out) && IsLast(out, e.mech, k) && Merges(out[k], e)
    ensures Collapsed(es + [e], out[k := Absorb(out[k], e)])
  {
    hide Merges, Chain, OfMech, Total;
    var x := Absorb(out[k], e);
    forall m ensures OfMech(out[k := x], m) == Chain(OfMech(es + [e], m)) {
      OfMechAppend(es, e, m);
      OfMechUpdate(out, k, x, m);
      assert OfMech(out, m) == Chain(OfMech(es, m));
      ChainAppend(OfMech(es, m), e);
    }
  }

  lemma {:induction false} LastIsLast(out: seq<Event>, m: string, k: nat)
    requires IsLast(out, m, k)
    ensures var rows := OfMech(out, m); rows != [] && rows[|rows| - 1] == out[k]
  {
    OfMechUpdate(out, k, out[k], m);
  }

  // ---- the collapsing loop ----

  predicate Earlier(a: Event, b: Event) { a.ts <= b.ts }

  /** Python's sorted, by start time. */
  function Sorted(es: seq<Event>): (r: seq<Event>) { Sort.Sorted(Earlier, es) }

  lemma EarlierIsOrder()
    ensures Sort.IsOrder(Earlier)
  {
  }

  /** Ordered by start time, with the same events, and events that start together in their old order. */
  lemma SortedSorts(es: seq<Event>, t: int)
    ensures Sort.Ordered(Earlier, Sorted(es)) && multiset(Sorted(es)) == multiset(es)
    ensures Sort.Filter((e: Event) => e.ts == t, Sorted(es)) == Sort.Filter((e: Event) => e.ts == t, es)
  {
    hide Sort.Sorted, Sort.Filter;
    EarlierIsOrder();
    Sort.SortedOrders(Earlier, es);
    Sort.SortedKeeps(Earlier, es);
    FilterHolds((e: Event) => e.ts == t, es);
    Sort.SortedIsStable(Earlier, es, (e: Event) => e.ts == t);
  }

  lemma {:induction false} FilterHolds(p: Event -> bool, es: seq<Event>)
    ensures forall i :: 0 <= i < |Sort.Filter(p, es)| ==> p(Sort.Filter(p, es)[i])
  {
    if es != [] { FilterHolds(p, es[..|es| - 1]); }
  }

  lemma {:induction false} TotalOfInsert(le: Sort.Order<Event>, e: Event, es: seq<Event>, m: string)
    ensures Total(OfMech(Sort.Insert(le, e, es), m)) == Total(OfMech(es, m)) + if e.mech == m then e.n else 0
  {
    hide OfMech, Total;
    if es == [] || le(es[|es| - 1], e) {
      OfMechAppend(es, e, m);
    } else {
      var init, l := es[..|es| - 1], es[|es| - 1];
      TotalOfInsert(le, e, init, m);
      assert es == init + [l];
      OfMechAppend(Sort.Insert(le, e, init), l, m);
      OfMechAppend(init, l, m);
    }
  }

  lemma {:induction false} TotalOfSorted(le: Sort.Order<Event>, es: seq<Event>, m: string)
    ensures Total(OfMech(Sort.Sorted(le, es), m)) == Total(OfMech(es, m))
  {
    hide OfMech, Total, Sort.Insert;
    if es != [] {
      var init, e := es[..|es| - 1], es[|es| - 1];
      TotalOfSorted(le, init, m);
      TotalOfInsert(le, e, Sort.Sorted(le, init), m);
      assert es == init + [e];
      OfMechAppend(init, e, m);
    }
  }

  /** The merged rows, in the order in which their first events come. */
  method MergeBursts(evs: seq<Event>) returns (out: seq<Event>)
    ensures Collapsed(Sorted(evs), out)
  {
    hide Merges, Absorb, OfMech, Chain, Sorted, Collapsed, LastRows;
    var es := Sorted(evs);
    out := [];
    var last: map<string, nat> := map[];
    NothingCollapsed();
    var i := 0;
    while i < |es|
      invariant 0 <= i <= |es|
      invariant LastRows(out, last) && Collapsed(es[..i], out)
    {
      var e := es[i];
      assert es[..i] + [e] == es[..i + 1];
      if e.mech in last { LastPlace(out, last, e.mech); }
      if e.mech in last && Merges(out[last[e.mech]], e) {
        var k := last[e.mech];
        MergeStep(es[..i], out, last, e);
        out := out[k := Absorb(out[k], e)];
      } else {
        AppendStep(es[..i], out, last, e);
        last := last[e.mech := |out|];
        out := out + [e];
      }
      i := i + 1;
    }
    assert es[..i] == es;
  }

  // ---- the causal order of the rows ----

  function CausalRank(mech: string): (r: nat) {
    if mech in {"vm-bridge", "obs-crash"} then 0
    else if mech in {"awdl", "wifi"} then 1
    else if mech == "route" then 2
    else if mech == "jetsam" then 3
    else if mech == "dvs-rescan" then 4
    else if mech == "dvs-stall" then 5
    else if mech == "memory" then 6
    else 9
  }

  function Second(e: Event): (t: int) { e.ts / 1000000 }

  /** By second, then by cause, then by time. */
  predicate Causal(a: Event, b: Event) {
    if Second(a) != Second(b) then Second(a) < Second(b)
    else if CausalRank(a.mech) != CausalRank(b.mech) then CausalRank(a.mech) < CausalRank(b.mech)
    else a.ts <= b.ts
  }

  lemma CausalIsOrder()
    ensures Sort.IsOrder(Causal)
  {
    hide CausalRank, Second;
  }

  lemma {:induction false} OfMechIsFilter(es: seq<Event>, m: string)
    ensures OfMech(es, m) == Sort.Filter((e: Event) => e.mech == m, es)
    ensures forall i :: 0 <= i < |OfMech(es, m)| ==> OfMech(es, m)[i].mech == m
  {
    if es != [] { OfMechIsFilter(es[..|es| - 1], m); }
  }

  lemma {:induction false} OfMechOrdered(es: seq<Event>, m: string)
    requires Sort.Ordered(Earlier, es)
    ensures Sort.Ordered(Earlier, OfMech(es, m))
    ensures es != [] ==> forall i :: 0 <= i < |OfMech(es, m)| ==> OfMech(es, m)[i].ts <= es[|es| - 1].ts
  {
    if es != [] {
      var init := es[..|es| - 1];
      OfMechOrdered(init, m);
      assert init != [] ==> es[|es| - 2].ts <= es[|es| - 1].ts;
    }
  }

  lemma {:induction false} ChainOrdered(es: seq<Event>)
    requires Sort.Ordered(Earlier, es)
    ensures Sort.Ordered(Earlier, Chain(es))
    ensures es != [] ==> forall i :: 0 <= i < |Chain(es)| ==> Chain(es)[i].ts <= es[|es| - 1].ts
  {
    hide Merges;
    if es != [] {
      var init := es[..|es| - 1];
      ChainOrdered(init);
      assert init != [] ==> es[|es| - 2].ts <= es[|es| - 1].ts;
    }
  }

  /** The rows of one mechanism are in causal order already, so sorting keeps them as they are. */
  lemma CausalSortKeeps(evs: seq<Event>, out: seq<Event>, m: string)
    requires Collapsed(Sorted(evs), out)
    ensures OfMech(Sort.Sorted(Causal, out), m) == OfMech(out, m)
  {
    hide OfMech, Chain, Sort.Sorted, Sort.Filter, CausalRank;
    EarlierIsOrder();
    Sort.SortedOrders(Earlier, evs);
    OfMechOrdered(Sorted(evs), m);
    ChainOrdered(OfMech(Sorted(evs), m));
    OfMechIsFilter(out, m);
    OfMechIsFilter(Sort.Sorted(Causal, out), m);
    assert OfMech(out, m) == Chain(OfMech(Sorted(evs), m));
    var rows := OfMech(out, m);
    forall i, j | 0 <= i < j < |rows| ensures Causal(rows[i], rows[j]) {
      assert Earlier(rows[i], rows[j]);
    }
    Sort.SortedIsStable(Causal, out, (e: Event) => e.mech == m);
  }

  /**
   * Merges bursts. The rows of each mechanism are those of collapsing it alone, in its order,
   * whatever the other mechanisms do; each mechanism keeps its total number of lines; and the
   * table is in causal order.
   */
  method Collapse(evs: seq<Event>) returns (rows: seq<Event>)
    ensures Collapsed(Sorted(evs), rows)
    ensures forall m :: Total(OfMech(rows, m)) == Total(OfMech(evs, m))
    ensures Sort.Ordered(Causal, rows)
  {
    hide OfMech, Chain, Sorted, Sort.Sorted, Causal, Total;
    var out := MergeBursts(evs);
    rows := Sort.Sorted(Causal, out);
    CausalIsOrder();
    Sort.SortedOrders(Causal, out);
    forall m ensures OfMech(rows, m) == Chain(OfMech(Sorted(evs), m)) {
      CausalSortKeeps(evs, out, m);
    }
    CollapseConserves(evs, rows);
  }

  // ---- where rows are cut ----

  /** The row a burst of events is merged into. */
  function RowOf(g: seq<Event>): (r: Event)
    requires g != []
  {
    if |g| == 1 then g[0] else Absorb(RowOf(g[..|g| - 1]), g[|g| - 1])
  }

  predicate JoinsRow(g: seq<Event>, e: Event) { g != [] && Merges(RowOf(g), e) }

  /** Where a burst ends: an event alone at its own end, a longer one at the start of its last event. */
  function EndOf(g: seq<Event>): (t: int)
    requires g != []
  {
    if |g| == 1 then g[0].tsEnd else g[|g| - 1].ts
  }

  /** A row is its first event, with all lines counted and the end moved to the start of the last event. */
  lemma {:induction false} RowIs(g: seq<Event>)
    requires g != []
    ensures RowOf(g) == g[0].(n := Total(g), tsEnd := EndOf(g))
  {
    if |g| > 1 {
      RowIs(g[..|g| - 1]);
    } else {
      assert g[..0] == [];
    }
  }

  /** An event joins a burst exactly if it may be merged, has the burst's severity and route, and comes within the window. */
  lemma JoinsRowIff(g: seq<Event>, e: Event)
    requires g != []
    ensures JoinsRow(g, e) <==>
      && e.mech !in NoCollapse && g[0].sev == e.sev && e.ts - EndOf(g) <= Window(e.mech)
      && (e.mech == "route" ==> RouteKey(g[0]) == RouteKey(e))
  {
    hide Window;
    RowIs(g);
  }

  ghost predicate AreRows(gs: seq<seq<Event>>, rows: seq<Event>) {
    |rows| == |gs| && forall k :: 0 <= k < |gs| ==> gs[k] != [] && rows[k] == RowOf(gs[k])
  }

  lemma RowOfLonger(g: seq<Event>, e: Event)
    requires g != []
    ensures RowOf(g + [e]) == Absorb(RowOf(g), e)
  {
    hide Absorb;
    assert (g + [e])[..|g|] == g;
  }

  lemma RowGrows(es: seq<Event>, gs: seq<seq<Event>>, e: Event)
    requires AreRows(gs, Chain(es)) && gs != [] && JoinsRow(gs[|gs| - 1], e)
    ensures AreRows(gs[..|gs| - 1] + [gs[|gs| - 1] + [e]], Chain(es + [e]))
  {
    hide Merges, Absorb, Chain, RowOf;
    ChainAppend(es, e);
    RowOfLonger(gs[|gs| - 1], e);
  }

  lemma RowOpens(es: seq<Event>, gs: seq<seq<Event>>, e: Event)
    requires AreRows(gs, Chain(es)) && (gs != [] ==> !JoinsRow(gs[|gs| - 1], e))
    ensures AreRows(gs + [[e]], Chain(es + [e]))
  {
    hide Merges, Absorb, Chain, RowOf;
    ChainAppend(es, e);
    RowIsAlone(e);
  }

  lemma RowIsAlone(e: Event)
    ensures RowOf([e]) == e
  {
  }

  lemma {:induction false} ChainIsCut(es: seq<Event>) returns (gs: seq<seq<Event>>)
    ensures IsCut(JoinsRow, es, gs) && AreRows(gs, Chain(es))
  {
    hide IsCut, JoinsRow, AreRows;
    if es == [] {
      gs := [];
      NoCut(JoinsRow);
      NoRows();
    } else {
      var init, e := es[..|es| - 1], es[|es| - 1];
      var before := ChainIsCut(init);
      assert es == init + [e];
      if before != [] && JoinsRow(before[|before| - 1], e) {
        gs := before[..|before| - 1] + [before[|before| - 1] + [e]];
        Extend(JoinsRow, init, before, e);
        RowGrows(init, before, e);
      } else {
        gs := before + [[e]];
        Open(JoinsRow, init, before, e);
        RowOpens(init, before, e);
      }
    }
  }

  lemma NoRows()
    ensures AreRows([], Chain([]))
  {
  }

  /** However a mechanism's events are cut exactly where they do not join, the bursts are its rows. */
  lemma ChainIsTheCut(es: seq<Event>, gs: seq<seq<Event>>)
    requires IsCut(JoinsRow, es, gs)
    ensures AreRows(gs, Chain(es))
  {
    hide Chain, IsCut, JoinsRow;
    var hs := ChainIsCut(es);
    CutIsUnique(JoinsRow, es, gs, hs);
  }

  lemma LastPlace(out: seq<Event>, last: map<string, nat>, m: string)
    requires LastRows(out, last) && m in last
    ensures last[m] < |out|
  {
  }

  lemma NothingCollapsed()
    ensures LastRows([], map[]) && Collapsed([], [])
  {
  }

  lemma MergeStep(es: seq<Event>, out: seq<Event>, last: map<string, nat>, e: Event)
    requires LastRows(out, last) && Collapsed(es, out) && e.mech in last && last[e.mech] < |out| && Merges(out[last[e.mech]], e)
    ensures var k := last[e.mech];
      LastRows(out[k := Absorb(out[k], e)], last) && Collapsed(es + [e], out[k := Absorb(out[k], e)])
  {
    hide Merges, OfMech, Chain, Collapsed;
    MergeRow(es, out, e, last[e.mech]);
  }

  lemma AppendStep(es: seq<Event>, out: seq<Event>, last: map<string, nat>, e: Event)
    requires LastRows(out, last) && Collapsed(es, out)
    requires !(e.mech in last && last[e.mech] < |out| && Merges(out[last[e.mech]], e))
    ensures LastRows(out + [e], last[e.mech := |out|]) && Collapsed(es + [e], out + [e])
  {
    hide Merges, OfMech, Chain, Collapsed;
    if e.mech in last {
      LastIsLast(out, e.mech, last[e.mech]);
    } else {
      OfMechEmpty(out, e.mech);
    }
    AppendRow(es, out, e);
  }

  lemma CollapseConserves(evs: seq<Event>, out: seq<Event>)
    requires Collapsed(Sorted(evs), out)
    ensures forall m :: Total(OfMech(out, m)) == Total(OfMech(evs, m))
  {
    hide OfMech, Chain, Sort.Sorted;
    forall m ensures Total(OfMech(out, m)) == Total(OfMech(evs, m)) {
      ChainConserves(OfMech(Sorted(evs), m));
      TotalOfSorted(Earlier, evs, m);
    }
  }
}
