/** Findings of the dependency report and how pins of one logical dependency are merged into one. */
module Findings {
  import opened Orders
  import opened SortKeys

  datatype Pin = Pin(file: string, version: string)

  datatype Finding = Finding(
    category: string, name: string, current: string, wanted: string, latest: string, tierLabel: string,
    source: string, url: string, releaseDate: string, status: string, ignored: bool, file: string,
    pins: seq<Pin>, reasons: seq<string>, infos: seq<string>, metadata: map<string, string>, tier: int)

  /** Unrecognised tiers rest at the third. */
  function Normalized(tier: int): (t: int)
    ensures 1 <= t <= 3
  {
    if tier == 1 || tier == 2 then tier else 3
  }

  function TierLabel(tier: int): (s: string) {
    match Normalized(tier) case 1 => "T1" case 2 => "T2" case _ => "T3"
  }

  /** Lower is more severe; an unrecognised status is the least severe. */
  function Rank(status: string): (r: nat) {
    if status == "update" then 0
    else if status == "unknown" then 1
    else if status == "hygiene" then 2
    else if status == "integrity" then 3
    else if status == "skipped" then 4
    else if status == "ok" then 5
    else 6
  }

  // ---- architecture suffixes ----

  const ArchSuffixes := [
    "_amd64", "_arm64", "_x86_64", "_aarch64", "_x86-64",
    "-amd64", "-arm64", "-x86_64", "-aarch64", "-x86-64"]

  predicate HasSuffix(s: string, suffix: string) {
    |suffix| <= |s| && s[|s| - |suffix|..] == suffix
  }

  function TrimFirst(name: string, suffixes: seq<string>): (base: string)
    ensures base <= name
  {
    if suffixes == [] then name
    else if HasSuffix(name, suffixes[0]) then name[..|name| - |suffixes[0]|]
    else TrimFirst(name, suffixes[1..])
  }

  function TrimArch(name: string): (base: string)
    ensures base <= name
  {
    TrimFirst(name, ArchSuffixes)
  }

  function TrimSeparators(s: string): (t: string) {
    if s != "" && (s[0] == '_' || s[0] == '-') then TrimSeparators(s[1..]) else s
  }

  function ArchLabel(name: string): (l: string) {
    TrimSeparators(name[|TrimArch(name)|..])
  }

  // ---- severity ----

  predicate MoreSevere(a: Finding, b: Finding) {
    if Rank(a.status) != Rank(b.status) then Rank(a.status) < Rank(b.status)
    else if Normalized(a.tier) != Normalized(b.tier) then Normalized(a.tier) < Normalized(b.tier)
    else CompareStrings(a.file, b.file) < 0
  }

  lemma MoreSevereTransitive(a: Finding, b: Finding, c: Finding)
    requires MoreSevere(a, b) && !MoreSevere(c, b)
    ensures MoreSevere(a, c)
  {
    hide CompareStrings, Rank;
    StringOrder();
    var x, y, z := a.file, b.file, c.file;
    assert CompareStrings(x, y) == -CompareStrings(y, x) && CompareStrings(z, y) == -CompareStrings(y, z);
    if CompareStrings(x, y) < 0 && CompareStrings(y, z) <= 0 {
      assert CompareStrings(x, z) <= 0;
    }
  }

  /** The most severe member, the first of them when several are equally severe. */
  ghost predicate IsWorst(members: seq<Finding>, k: nat) {
    && k < |members|
    && (forall j :: 0 <= j < |members| ==> !MoreSevere(members[j], members[k]))
    && (forall j :: 0 <= j < k ==> MoreSevere(members[k], members[j]))
  }

  method MostSevere(members: seq<Finding>) returns (best: Finding)
    requires members != []
    ensures exists k :: 0 <= k < |members| && IsWorst(members, k) && best == members[k]
  {
    hide MoreSevere;
    best := members[0];
    ghost var k: nat := 0;
    var i := 1;
    NotBelowItself(best);
    while i < |members|
      invariant 1 <= i <= |members| && IsWorst(members[..i], k) && best == members[k]
    {
      ghost var seen := members[..i + 1];
      assert forall j :: 0 <= j < i ==> seen[j] == members[..i][j];
      if MoreSevere(members[i], best) {
        forall j | 0 <= j < i ensures MoreSevere(members[i], members[j]) && !MoreSevere(members[j], members[i]) {
          assert !MoreSevere(members[..i][j], best);
          MoreSevereTransitive(members[i], best, members[j]);
          Asymmetric(members[i], members[j]);
        }
        NotBelowItself(members[i]);
        best, k := members[i], i;
      }
      i := i + 1;
    }
    assert members[..i] == members;
  }

  lemma NotBelowItself(a: Finding)
    ensures !MoreSevere(a, a)
  {
    hide CompareStrings;
    StringOrder();
    assert CompareStrings(a.file, a.file) == -CompareStrings(a.file, a.file);
  }

  lemma Asymmetric(a: Finding, b: Finding)
    requires MoreSevere(a, b)
    ensures !MoreSevere(b, a)
  {
    hide CompareStrings;
    StringOrder();
    assert CompareStrings(a.file, b.file) == -CompareStrings(b.file, a.file);
  }

  method MinTier(members: seq<Finding>) returns (t: int)
    requires members != []
    ensures (exists i :: 0 <= i < |members| && t == Normalized(members[i].tier))
    ensures forall i :: 0 <= i < |members| ==> t <= Normalized(members[i].tier)
  {
    t := Normalized(members[0].tier);
    var i := 1;
    while i < |members|
      invariant 1 <= i <= |members|
      invariant exists j :: 0 <= j < i && t == Normalized(members[j].tier)
      invariant forall j :: 0 <= j < i ==> t <= Normalized(members[j].tier)
    {
      var n := Normalized(members[i].tier);
      if n < t { t := n; }
      i := i + 1;
    }
  }

  method AllIgnored(members: seq<Finding>) returns (yes: bool)
    ensures yes <==> forall i :: 0 <= i < |members| ==> members[i].ignored
  {
    var i := 0;
    while i < |members|
      invariant 0 <= i <= |members| && forall j :: 0 <= j < i ==> members[j].ignored
    {
      if !members[i].ignored { return false; }
      i := i + 1;
    }
    return true;
  }

  function PinOf(f: Finding): (p: Pin) { Pin(f.file, f.current) }

  /** Every declaration, each once. */
  function PinKey(p: Pin): (key: seq<string>) { [p.file, p.version] }

  /** The pins of the members, each once, by file and version. */
  ghost predicate ArePins(members: seq<Finding>, pins: seq<Pin>) {
    && (forall p :: p in pins <==> exists i :: 0 <= i < |members| && PinOf(members[i]) == p)
    && (forall i, j :: 0 <= i < j < |pins| ==> pins[i] != pins[j])
    && Sort.Ordered(By(PinKey), pins)
  }

  method CollectPins(members: seq<Finding>) returns (pins: seq<Pin>)
    ensures ArePins(members, pins)
  {
    hide By;
    var seen: set<Pin> := {};
    pins := [];
    var i := 0;
    while i < |members|
      invariant 0 <= i <= |members|
      invariant forall p :: p in pins <==> exists j :: 0 <= j < i && PinOf(members[j]) == p
      invariant forall p :: p in seen <==> p in pins
      invariant forall j, k :: 0 <= j < k < |pins| ==> pins[j] != pins[k]
    {
      var p := PinOf(members[i]);
      if p !in seen {
        seen := seen + {p};
        pins := pins + [p];
      }
      i := i + 1;
    }
    ghost var found := pins;
    pins := SortBy(PinKey, pins);
    SameElements(found, pins);
  }

  lemma SameElements<T>(s: seq<T>, r: seq<T>)
    requires multiset(s) == multiset(r)
    ensures forall x :: x in s <==> x in r
    ensures (forall i, j :: 0 <= i < j < |s| ==> s[i] != s[j]) ==> forall i, j :: 0 <= i < j < |r| ==> r[i] != r[j]
  {
    assert forall x :: x in s <==> x in multiset(s);
    assert forall x :: x in r <==> x in multiset(r);
    if forall i, j :: 0 <= i < j < |s| ==> s[i] != s[j] {
      OnceEach(s);
      forall i, j | 0 <= i < j < |r| ensures r[i] != r[j] {
        assert r == r[..i] + [r[i]] + r[i + 1..j] + [r[j]] + r[j + 1..];
        assert r[i] == r[j] ==> multiset(r)[r[i]] >= 2;
        assert multiset(s)[r[i]] <= 1;
      }
    }
  }

  lemma {:induction false} OnceEach<T>(s: seq<T>)
    requires forall i, j :: 0 <= i < j < |s| ==> s[i] != s[j]
    ensures forall x :: multiset(s)[x] <= 1
  {
    if s != [] {
      var init, l := s[..|s| - 1], s[|s| - 1];
      OnceEach(init);
      assert s == init + [l];
      assert l !in multiset(init);
    }
  }

  lemma PinKeysAreExact(pins: seq<Pin>)
    ensures NoTies(PinKey, pins)
  {
    forall x, y | PinKey(x) == PinKey(y) ensures x == y {
      assert PinKey(x)[0] == PinKey(y)[0] && PinKey(x)[1] == PinKey(y)[1];
    }
  }

  /** The list of pins depends only on which pins the members have. */
  lemma PinsAreUnique(members: seq<Finding>, others: seq<Finding>, pins: seq<Pin>, qins: seq<Pin>)
    requires ArePins(members, pins) && ArePins(others, qins)
    requires forall p :: p in pins <==> p in qins
    ensures pins == qins
  {
    hide By;
    OnceEach(pins);
    OnceEach(qins);
    forall p ensures multiset(pins)[p] == multiset(qins)[p] {
      assert p in pins <==> p in multiset(pins);
      assert p in qins <==> p in multiset(qins);
    }
    PinKeysAreExact(pins);
    SortsAgree(PinKey, pins, qins);
  }

  ghost predicate VersionsDiffer(members: seq<Finding>) {
    exists i, j :: 0 <= i < j < |members| && members[i].current != members[j].current
  }

  ghost predicate ArchesDiffer(members: seq<Finding>) {
    exists i, j :: 0 <= i < j < |members| && ArchLabel(members[i].name) != ArchLabel(members[j].name)
  }

  method MixedVersion(members: seq<Finding>) returns (yes: bool)
    requires members != []
    ensures yes == VersionsDiffer(members)
  {
    var i := 1;
    while i < |members|
      invariant 1 <= i <= |members| && forall j :: 0 <= j < i ==> members[j].current == members[0].current
    {
      if members[i].current != members[0].current { return true; }
      i := i + 1;
    }
    return false;
  }

  method MixedArch(members: seq<Finding>) returns (yes: bool)
    requires members != []
    ensures yes == ArchesDiffer(members)
  {
    hide ArchLabel;
    var arches: set<string> := {};
    var i := 0;
    while i < |members|
      invariant 0 <= i <= |members|
      invariant forall a :: a in arches <==> exists j :: 0 <= j < i && ArchLabel(members[j].name) == a
    {
      arches := arches + {ArchLabel(members[i].name)};
      i := i + 1;
    }
    yes := |arches| > 1;
    var first := ArchLabel(members[0].name);
    assert first in arches;
    if yes {
      assert arches != {first};
      var other :| other in arches && other != first;
      var j :| 0 <= j < |members| && ArchLabel(members[j].name) == other;
      assert j > 0 && ArchLabel(members[0].name) != ArchLabel(members[j].name);
    } else {
      OnlyOne(arches, first);
      assert forall j :: 0 <= j < |members| ==> ArchLabel(members[j].name) in arches;
    }
  }

  lemma OnlyOne<T>(s: set<T>, x: T)
    requires x in s && |s| <= 1
    ensures s == {x}
  {
    assert |s - {x}| == |s| - 1;
    assert s - {x} == {};
  }

  // ---- merging ----

  datatype LogicalKey = LogicalKey(category: string, name: string)

  function KeyOf(f: Finding): (k: LogicalKey) { LogicalKey(f.category, TrimArch(f.name)) }

  function DriftText(versions: bool, arches: bool): (s: string) {
    if versions && arches then "mixed-arch,mixed-version"
    else if versions then "mixed-version"
    else if arches then "mixed-arch"
    else ""
  }

  /** `m` is the worst member in everything that merging leaves alone. */
  ghost predicate Represents(key: LogicalKey, members: seq<Finding>, k: nat, m: Finding) {
    && k < |members| && IsWorst(members, k)
    && m == members[k].(name := key.name, pins := m.pins, tier := m.tier, tierLabel := TierLabel(m.tier),
                        ignored := m.ignored, metadata := m.metadata)
    && DriftNoted(members, members[k].metadata, m.metadata)
  }

  /**
   * One finding for all members: the worst of them, under the group's name and the lowest tier,
   * with every pin, ignored only if all are, and with the drift between them noted.
   */
  ghost predicate IsMerge(key: LogicalKey, members: seq<Finding>, m: Finding) {
    && (exists k: nat :: Represents(key, members, k, m))
    && ArePins(members, m.pins)
    && (exists i :: 0 <= i < |members| && m.tier == Normalized(members[i].tier))
    && (forall i :: 0 <= i < |members| ==> m.tier <= Normalized(members[i].tier))
    && (m.ignored <==> forall i :: 0 <= i < |members| ==> members[i].ignored)
  }

  ghost predicate DriftNoted(members: seq<Finding>, base: map<string, string>, md: map<string, string>) {
    var v, a := VersionsDiffer(members), ArchesDiffer(members);
    md == if v || a then base["drift" := DriftText(v, a)] else base
  }

  method MergeFindings(key: LogicalKey, members: seq<Finding>) returns (m: Finding)
    requires members != []
    ensures IsMerge(key, members, m)
  {
    hide MoreSevere, VersionsDiffer, ArchesDiffer, DriftText, Normalized, TierLabel, IsWorst;
    var best := MostSevere(members);
    ghost var k: nat :| k < |members| && IsWorst(members, k) && best == members[k];
    var pins := CollectPins(members);
    var tier := MinTier(members);
    var ignored := AllIgnored(members);
    var versions := MixedVersion(members);
    var arches := MixedArch(members);
    var metadata := best.metadata;
    if versions || arches { metadata := metadata["drift" := DriftText(versions, arches)]; }
    m := best.(name := key.name, pins := pins, tier := tier, tierLabel := TierLabel(tier), ignored := ignored, metadata := metadata);
    assert Represents(key, members, k, m);
  }

  /** A merged finding hides nothing: its status and tier are at least as severe as every member's. */
  lemma MergeIsWorst(key: LogicalKey, members: seq<Finding>, m: Finding, i: nat)
    requires IsMerge(key, members, m) && i < |members|
    ensures Rank(m.status) <= Rank(members[i].status) && m.tier <= Normalized(members[i].tier)
    ensures PinOf(members[i]) in m.pins
    ensures m.ignored ==> members[i].ignored
  {
    hide CompareStrings, Rank, DriftNoted, TierLabel;
    var k: nat :| Represents(key, members, k, m);
    assert !MoreSevere(members[i], members[k]);
  }

  // ---- grouping ----

  /** The distinct keys in the order they first occur. */
  function Keys(fs: seq<Finding>): (ks: seq<LogicalKey>) {
    if fs == [] then []
    else
      var ks, k := Keys(fs[..|fs| - 1]), KeyOf(fs[|fs| - 1]);
      if k in ks then ks else ks + [k]
  }

  function Members(fs: seq<Finding>, k: LogicalKey): (ms: seq<Finding>) {
    if fs == [] then []
    else
      var f := fs[|fs| - 1];
      Members(fs[..|fs| - 1], k) + if KeyOf(f) == k then [f] else []
  }

  /** The groups one after the other. */
  function Grouped(fs: seq<Finding>, ks: seq<LogicalKey>): (gs: seq<Finding>) {
    if ks == [] then [] else Members(fs, ks[0]) + Grouped(fs, ks[1..])
  }

  ghost predicate NoRepeats<T(!new)>(s: seq<T>) {
    forall i, j :: 0 <= i < j < |s| ==> s[i] != s[j]
  }

  lemma {:induction false} KeysAreDistinct(fs: seq<Finding>)
    ensures NoRepeats(Keys(fs))
    ensures forall i :: 0 <= i < |fs| ==> KeyOf(fs[i]) in Keys(fs)
    ensures forall k :: k in Keys(fs) ==> Members(fs, k) != []
  {
    hide KeyOf;
    if fs != [] {
      var init := fs[..|fs| - 1];
      KeysAreDistinct(init);
      forall i | 0 <= i < |fs| ensures KeyOf(fs[i]) in Keys(fs) {
        if i < |init| { assert KeyOf(init[i]) in Keys(init); }
      }
    }
  }

  lemma {:induction false} MembersShareKey(fs: seq<Finding>, k: LogicalKey)
    ensures forall i :: 0 <= i < |Members(fs, k)| ==> KeyOf(Members(fs, k)[i]) == k
    ensures k !in Keys(fs) ==> Members(fs, k) == []
  {
    hide KeyOf;
    if fs != [] { MembersShareKey(fs[..|fs| - 1], k); }
  }

  lemma MembersAppend(fs: seq<Finding>, f: Finding, k: LogicalKey)
    ensures Members(fs + [f], k) == Members(fs, k) + if KeyOf(f) == k then [f] else []
  {
    assert (fs + [f])[..|fs|] == fs;
  }

  lemma {:induction false} GroupedAppend(fs: seq<Finding>, f: Finding, ks: seq<LogicalKey>)
    requires NoRepeats(ks)
    ensures multiset(Grouped(fs + [f], ks)) == multiset(Grouped(fs, ks)) + if KeyOf(f) in ks then multiset{f} else multiset{}
  {
    hide KeyOf, Members;
    if ks != [] {
      GroupedAppend(fs, f, ks[1..]);
      MembersAppend(fs, f, ks[0]);
      assert KeyOf(f) in ks <==> KeyOf(f) == ks[0] || KeyOf(f) in ks[1..];
      assert KeyOf(f) == ks[0] ==> KeyOf(f) !in ks[1..];
    }
  }

  lemma {:induction false} GroupedConcat(fs: seq<Finding>, a: seq<LogicalKey>, b: seq<LogicalKey>)
    ensures Grouped(fs, a + b) == Grouped(fs, a) + Grouped(fs, b)
  {
    hide Members;
    if a == [] {
      assert a + b == b;
    } else {
      GroupedConcat(fs, a[1..], b);
      assert (a + b)[1..] == a[1..] + b;
    }
  }

  /** Grouping neither loses nor repeats a finding. */
  lemma {:induction false} GroupsPartition(fs: seq<Finding>)
    ensures multiset(Grouped(fs, Keys(fs))) == multiset(fs)
  {
    hide KeyOf, Members;
    if fs != [] {
      var init, f := fs[..|fs| - 1], fs[|fs| - 1];
      GroupsPartition(init);
      KeysAreDistinct(init);
      assert fs == init + [f];
      GroupedAppend(init, f, Keys(init));
      if KeyOf(f) !in Keys(init) {
        GroupedConcat(fs, Keys(init), [KeyOf(f)]);
        MembersShareKey(init, KeyOf(f));
        MembersAppend(init, f, KeyOf(f));
        assert Grouped(fs, [KeyOf(f)]) == [f];
      }
    }
  }

  /** One finding per key: a lone member unchanged, several members merged. */
  ghost predicate IsCollapse(fs: seq<Finding>, cs: seq<Finding>) {
    && |cs| == |Keys(fs)|
    && forall i :: 0 <= i < |cs| ==> IsGroup(Keys(fs)[i], Members(fs, Keys(fs)[i]), cs[i])
  }

  ghost predicate IsGroup(k: LogicalKey, members: seq<Finding>, c: Finding) {
    if |members| == 1 then c == members[0] else IsMerge(k, members, c)
  }

  method GroupFindings(fs: seq<Finding>) returns (order: seq<LogicalKey>, groups: map<LogicalKey, seq<Finding>>)
    ensures order == Keys(fs) && forall k :: k in order ==> k in groups && groups[k] == Members(fs, k)
  {
    hide KeyOf;
    groups, order := map[], [];
    var i := 0;
    while i < |fs|
      invariant 0 <= i <= |fs| && order == Keys(fs[..i])
      invariant forall k :: k in groups <==> k in order
      invariant forall k :: k in groups ==> groups[k] == Members(fs[..i], k)
    {
      var f := fs[i];
      var key := KeyOf(f);
      assert fs[..i + 1][..i] == fs[..i];
      MembersShareKey(fs[..i], key);
      if key !in groups {
        order := order + [key];
        groups := groups[key := []];
      }
      groups := groups[key := groups[key] + [f]];
      i := i + 1;
    }
    assert fs[..i] == fs;
  }

  method CollapseFindings(fs: seq<Finding>) returns (cs: seq<Finding>)
    ensures IsCollapse(fs, cs)
  {
    hide KeyOf, IsMerge, Keys, Members;
    var order, groups := GroupFindings(fs);
    var i;
    KeysAreDistinct(fs);
    cs := [];
    i := 0;
    while i < |order|
      invariant 0 <= i <= |order| == |Keys(fs)| && |cs| == i
      invariant forall j :: 0 <= j < i ==> IsGroup(Keys(fs)[j], Members(fs, Keys(fs)[j]), cs[j])
    {
      var members := groups[order[i]];
      if |members| == 1 {
        cs := cs + [members[0]];
      } else {
        var m := MergeFindings(order[i], members);
        cs := cs + [m];
      }
      i := i + 1;
    }
  }
}
