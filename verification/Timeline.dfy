/** Episodes of events: the timeline cut where nothing happened for longer than a gap. */
module Timeline {
  import opened Cuts
  import opened EventLog

  predicate Close(a: Event, b: Event, gap: int) { b.ts - a.tsEnd <= gap }

  /** An event belongs to the episode before it if it starts within the gap after that episode's last event ended. */
  function WithinGap(gap: int): (joins: Joining<Event>) {
    (g: seq<Event>, e: Event) => g != [] && Close(g[|g| - 1], e, gap)
  }

  /** The events cut exactly where the next one starts more than the gap after the last one ended. */
  ghost predicate IsEpisodes(es: seq<Event>, gap: int, gs: seq<seq<Event>>) {
    IsCut(WithinGap(gap), es, gs)
  }

  method GroupEpisodes(evs: seq<Event>, gap: int) returns (groups: seq<seq<Event>>)
    ensures IsEpisodes(Sorted(evs), gap, groups)
  {
    hide Close, Sorted, IsCut;
    var es := Sorted(evs);
    groups := [];
    ghost var joins := WithinGap(gap);
    NoCut(joins);
    var i := 0;
    while i < |es|
      invariant 0 <= i <= |es| && IsCut(joins, es[..i], groups)
    {
      var e := es[i];
      assert es[..i] + [e] == es[..i + 1];
      var k := |groups| - 1;
      if groups != [] { GroupsAreFull(joins, es[..i], groups); }
      if groups != [] && Close(groups[k][|groups[k]| - 1], e, gap) {
        Extend(joins, es[..i], groups, e);
        groups := groups[..k] + [groups[k] + [e]];
      } else {
        Open(joins, es[..i], groups, e);
        groups := groups + [[e]];
      }
      i := i + 1;
    }
    assert es[..i] == es;
  }

  /** Inside an episode every gap is within the limit, and before every later episode it is not. */
  lemma EpisodesMean(es: seq<Event>, gap: int, gs: seq<seq<Event>>, k: nat)
    requires IsEpisodes(es, gap, gs) && k < |gs|
    ensures gs[k] != [] && forall i :: 0 < i < |gs[k]| ==> Close(gs[k][i - 1], gs[k][i], gap)
    ensures k > 0 ==> gs[k - 1] != [] && !Close(gs[k - 1][|gs[k - 1]| - 1], gs[k][0], gap)
  {
    hide Joined, Close;
    var g := gs[k];
    assert Whole(WithinGap(gap), g);
    forall i | 0 < i < |g| ensures Close(g[i - 1], g[i], gap) {
      assert WithinGap(gap)(g[..i], g[i]);
      assert g[..i][i - 1] == g[i - 1];
    }
    if k > 0 { assert Whole(WithinGap(gap), gs[k - 1]) && Apart(WithinGap(gap), gs[k - 1], g); }
  }

  /** There is only one way to cut the events like this. */
  lemma EpisodesAreUnique(es: seq<Event>, gap: int, gs: seq<seq<Event>>, hs: seq<seq<Event>>)
    requires IsEpisodes(es, gap, gs) && IsEpisodes(es, gap, hs)
    ensures gs == hs
  {
    CutIsUnique(WithinGap(gap), es, gs, hs);
  }
}
