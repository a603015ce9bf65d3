/** The dependency report: routing, counting, and the strict verdict over the same records. */
module Report {
  import opened Options
  import opened Dependencies
  import opened IgnoreRules
  import opened Findings
  import opened SortKeys

  datatype Resolved = Resolved(
    dep: Dependency, tier: int, status: string, latest: string, date: string,
    reasons: seq<string>, infos: seq<string>, metadata: map<string, string>)

  datatype Section = FindingSection | InventorySection | IntegritySection

  const InventoryNote := "inventory:transitive"

  predicate Contains(s: string, t: string) {
    t <= s || (s != "" && Contains(s[1..], t))
  }

  function SectionFor(r: Resolved): (s: Section) {
    if r.dep.role == "integrity" || r.status == "integrity" then IntegritySection
    else if Contains(r.dep.note, InventoryNote) then InventorySection
    else FindingSection
  }

  datatype Row = Row(category: string, name: string, current: string, file: string, source: string, note: string)

  datatype UnknownEntry = UnknownEntry(name: string, file: string, reason: string, ignored: bool)

  datatype ExtractionUnknown = ExtractionUnknown(file: string, reason: string)

  datatype Counts = Counts(
    total: nat, t1: nat, t2: nat, t3: nat, update: nat, statusUnknown: nat, ok: nat, hygiene: nat,
    ignored: nat, unknownsTotal: nat, inventory: nat, integrity: nat, skipped: nat)

  datatype Report = Report(
    findings: seq<Finding>, unknowns: seq<UnknownEntry>, inventory: seq<Row>, integrity: seq<Row>, counts: Counts)

  const NoCounts := Counts(0, 0, 0, 0, 0, 0, 0, 0, 0, 0, 0, 0, 0)

  function FindingId(dep: Dependency): (id: string) { dep.category + "/" + dep.name }

  function ToRow(r: Resolved): (row: Row) {
    Row(r.dep.category, r.dep.name, r.dep.version, r.dep.file, r.dep.source, r.dep.note)
  }

  predicate IsUrl(s: string) { "http://" <= s || "https://" <= s }

  function ToFinding(r: Resolved, ignored: bool): (f: Finding) {
    Finding(r.dep.category, r.dep.name, r.dep.version, if r.status == "unknown" then "" else r.latest, r.latest,
            TierLabel(r.tier), r.dep.source, if IsUrl(r.dep.source) then r.dep.source else "", r.date, r.status, ignored,
            r.dep.file, [], r.reasons, r.infos, r.metadata, Normalized(r.tier))
  }

  function Joined(ss: seq<string>, sep: string): (s: string) {
    if ss == [] then "" else if |ss| == 1 then ss[0] else ss[0] + sep + Joined(ss[1..], sep)
  }

  function ToUnknown(r: Resolved, ignored: bool): (u: UnknownEntry) {
    UnknownEntry(if r.dep.name != "" then r.dep.name else r.dep.category, r.dep.file, Joined(r.reasons, "; "), ignored)
  }

  // ---- routing, as functions of the records ----

  /** The records of one section, in their order. */
  function InSection(all: seq<Resolved>, s: Section): (rs: seq<Resolved>) {
    if all == [] then []
    else
      var r := all[|all| - 1];
      InSection(all[..|all| - 1], s) + if SectionFor(r) == s then [r] else []
  }

  ghost predicate IgnoredRecord(rules: seq<Rule>, today: string, r: Resolved) {
    Ignored(rules, FindingId(r.dep), r.dep.file, today)
  }

  ghost function FindingOf(rules: seq<Rule>, today: string, r: Resolved): (f: Finding) {
    ToFinding(r, IgnoredRecord(rules, today, r))
  }

  ghost function AllFindings(rules: seq<Rule>, today: string, rs: seq<Resolved>): (fs: seq<Finding>)
    ensures |fs| == |rs|
  {
    seq(|rs|, i requires 0 <= i < |rs| => FindingOf(rules, today, rs[i]))
  }

  function Rows(rs: seq<Resolved>): (rows: seq<Row>)
    ensures |rows| == |rs|
  {
    seq(|rs|, i requires 0 <= i < |rs| => ToRow(rs[i]))
  }

  /** An entry for each record that came back unknown. */
  ghost function ResolvedUnknowns(rules: seq<Rule>, today: string, rs: seq<Resolved>): (us: seq<UnknownEntry>) {
    if rs == [] then []
    else
      var r := rs[|rs| - 1];
      ResolvedUnknowns(rules, today, rs[..|rs| - 1]) +
      if r.status == "unknown" then [ToUnknown(r, IgnoredRecord(rules, today, r))] else []
  }

  ghost function ExtractionEntries(rules: seq<Rule>, today: string, us: seq<ExtractionUnknown>): (es: seq<UnknownEntry>) {
    seq(|us|, i requires 0 <= i < |us| => UnknownEntry("", us[i].file, us[i].reason, Covered(rules, us[i].file, today)))
  }

  function Listed(cs: seq<Finding>, includeOK: bool): (fs: seq<Finding>) {
    if cs == [] then []
    else
      var f := cs[|cs| - 1];
      Listed(cs[..|cs| - 1], includeOK) + if f.status != "ok" || includeOK then [f] else []
  }

  // ---- counting ----

  function Counted(c: Counts, f: Finding): (d: Counts) {
    var c := match Normalized(f.tier)
      case 1 => c.(t1 := c.t1 + 1)
      case 2 => c.(t2 := c.t2 + 1)
      case _ => c.(t3 := c.t3 + 1);
    var c :=
      if f.status == "update" then c.(update := c.update + 1)
      else if f.status == "unknown" then c.(statusUnknown := c.statusUnknown + 1)
      else if f.status == "ok" then c.(ok := c.ok + 1)
      else if f.status == "hygiene" then c.(hygiene := c.hygiene + 1)
      else if f.status == "skipped" then c.(skipped := c.skipped + 1)
      else c;
    if f.ignored then c.(ignored := c.ignored + 1) else c
  }

  function Tally(cs: seq<Finding>): (c: Counts) {
    if cs == [] then NoCounts else Counted(Tally(cs[..|cs| - 1]), cs[|cs| - 1])
  }

  predicate Recognised(f: Finding) { f.status in {"update", "unknown", "ok", "hygiene", "skipped"} }

  function StatusSum(c: Counts): (n: nat) { c.update + c.statusUnknown + c.ok + c.hygiene + c.skipped }

  /** Each finding is in exactly one tier, and in one status tally if its status is a known one. */
  lemma {:induction false} TallyCounts(cs: seq<Finding>)
    ensures var c := Tally(cs);
      && c.t1 + c.t2 + c.t3 == |cs| && c.ignored <= |cs|
      && StatusSum(c) <= |cs| && (StatusSum(c) == |cs| <==> forall i :: 0 <= i < |cs| ==> Recognised(cs[i]))
  {
    hide Counted, StatusSum, Recognised;
    if cs == [] {
      NothingCounted();
    } else {
      var init := cs[..|cs| - 1];
      TallyCounts(init);
      CountedOnce(Tally(init), cs[|cs| - 1]);
      assert forall i :: 0 <= i < |init| ==> init[i] == cs[i];
    }
  }

  lemma NothingCounted()
    ensures StatusSum(NoCounts) == 0
  {
  }

  lemma CountedOnce(c: Counts, f: Finding)
    ensures var d := Counted(c, f);
      && d.t1 + d.t2 + d.t3 == c.t1 + c.t2 + c.t3 + 1
      && StatusSum(d) == StatusSum(c) + (if Recognised(f) then 1 else 0)
      && d.ignored == c.ignored + (if f.ignored then 1 else 0)
  {
    hide Normalized;
  }

  // ---- building ----

  function FindingKey(f: Finding): (key: seq<string>) { [f.category, f.name, f.current] }

  function RowKey(row: Row): (key: seq<string>) { [row.category, row.name, row.file, row.current] }

  function UnknownKey(u: UnknownEntry): (key: seq<string>) { [u.file, u.name, u.reason] }

  /** What the report holds, each list sorted by its key. */
  ghost predicate IsReport(
    all: seq<Resolved>, unknowns: seq<ExtractionUnknown>, rules: seq<Rule>, today: string, includeOK: bool,
    cs: seq<Finding>, rep: Report)
  {
    var rs := InSection(all, FindingSection);
    && IsCollapse(AllFindings(rules, today, rs), cs)
    && IsSortOf(FindingKey, Listed(cs, includeOK), rep.findings)
    && IsSortOf(RowKey, Rows(InSection(all, InventorySection)), rep.inventory)
    && IsSortOf(RowKey, Rows(InSection(all, IntegritySection)), rep.integrity)
    && IsSortOf(UnknownKey, ResolvedUnknowns(rules, today, rs) + ExtractionEntries(rules, today, unknowns), rep.unknowns)
    && rep.counts == Tally(cs).(
         total := |cs| + |rep.inventory| + |rep.integrity|, inventory := |rep.inventory|, integrity := |rep.integrity|,
         unknownsTotal := |rep.unknowns|)
  }

  method Route(all: seq<Resolved>, rules: seq<Rule>, today: string)
    returns (findings: seq<Finding>, unknowns: seq<UnknownEntry>, inventory: seq<Row>, integrity: seq<Row>)
    ensures var rs := InSection(all, FindingSection);
      && findings == AllFindings(rules, today, rs) && unknowns == ResolvedUnknowns(rules, today, rs)
      && inventory == Rows(InSection(all, InventorySection)) && integrity == Rows(InSection(all, IntegritySection))
  {
    hide SectionFor, Ignored, InSection, AllFindings, Rows, ResolvedUnknowns, ToUnknown, ToFinding;
    RouteNothing(rules, today);
    findings, unknowns, inventory, integrity := [], [], [], [];
    var i := 0;
    while i < |all|
      invariant 0 <= i <= |all|
      invariant findings == AllFindings(rules, today, InSection(all[..i], FindingSection))
      invariant unknowns == ResolvedUnknowns(rules, today, InSection(all[..i], FindingSection))
      invariant inventory == Rows(InSection(all[..i], InventorySection))
      invariant integrity == Rows(InSection(all[..i], IntegritySection))
    {
      var r := all[i];
      assert all[..i + 1][..i] == all[..i];
      var ignored := IsIgnoredOn(rules, FindingId(r.dep), r.dep.file, today);
      var f := ToFinding(r, ignored);
      RouteStep(rules, today, all[..i], r);
      assert all[..i] + [r] == all[..i + 1];
      match SectionFor(r) {
        case IntegritySection => integrity := integrity + [ToRow(r)];
        case InventorySection => inventory := inventory + [ToRow(r)];
        case FindingSection =>
          findings := findings + [f];
          if r.status == "unknown" { unknowns := unknowns + [ToUnknown(r, ignored)]; }
      }
      i := i + 1;
    }
    assert all[..i] == all;
  }

  lemma RouteNothing(rules: seq<Rule>, today: string)
    ensures forall s :: InSection([], s) == []
    ensures AllFindings(rules, today, []) == [] && ResolvedUnknowns(rules, today, []) == [] && Rows([]) == []
  {
  }

  /** One more record joins the list of its section and no other. */
  lemma RouteStep(rules: seq<Rule>, today: string, all: seq<Resolved>, r: Resolved)
    ensures var s, more := SectionFor(r), all + [r];
      && AllFindings(rules, today, InSection(more, FindingSection)) ==
           AllFindings(rules, today, InSection(all, FindingSection)) + (if s == FindingSection then [FindingOf(rules, today, r)] else [])
      && ResolvedUnknowns(rules, today, InSection(more, FindingSection)) ==
           ResolvedUnknowns(rules, today, InSection(all, FindingSection)) +
           (if s == FindingSection && r.status == "unknown" then [ToUnknown(r, IgnoredRecord(rules, today, r))] else [])
      && Rows(InSection(more, InventorySection)) ==
           Rows(InSection(all, InventorySection)) + (if s == InventorySection then [ToRow(r)] else [])
      && Rows(InSection(more, IntegritySection)) ==
           Rows(InSection(all, IntegritySection)) + (if s == IntegritySection then [ToRow(r)] else [])
  {
    hide SectionFor, Ignored;
    assert (all + [r])[..|all|] == all;
    var rs := InSection(all, FindingSection);
    assert (rs + [r])[..|rs|] == rs;
    assert rs + [] == rs;
  }

  method BuildReport(
    all: seq<Resolved>, unknowns: seq<ExtractionUnknown>, rules: seq<Rule>, today: string, includeOK: bool)
    returns (rep: Report)
    ensures exists cs :: IsReport(all, unknowns, rules, today, includeOK, cs, rep)
  {
    hide IsCollapse, AllFindings, ResolvedUnknowns, InSection, Covered, Counted, IsSortOf, FindingKey, RowKey, UnknownKey;
    var findings, entries, inventory, integrity := Route(all, rules, today);
    var collapsed := CollapseFindings(findings);
    var counts, listed := NoCounts, [];
    var i := 0;
    while i < |collapsed|
      invariant 0 <= i <= |collapsed|
      invariant counts == Tally(collapsed[..i]) && listed == Listed(collapsed[..i], includeOK)
    {
      assert collapsed[..i + 1][..i] == collapsed[..i];
      counts := Counted(counts, collapsed[i]);
      if collapsed[i].status != "ok" || includeOK { listed := listed + [collapsed[i]]; }
      i := i + 1;
    }
    assert collapsed[..i] == collapsed;
    var extracted: seq<UnknownEntry> := [];
    i := 0;
    while i < |unknowns|
      invariant 0 <= i <= |unknowns|
      invariant extracted == ExtractionEntries(rules, today, unknowns)[..i]
    {
      var covered := CoversFile(rules, unknowns[i].file, today);
      extracted := extracted + [UnknownEntry("", unknowns[i].file, unknowns[i].reason, covered)];
      i := i + 1;
    }
    assert extracted == ExtractionEntries(rules, today, unknowns);
    var us := entries + extracted;
    listed := SortBy(FindingKey, listed);
    inventory := SortBy(RowKey, inventory);
    integrity := SortBy(RowKey, integrity);
    us := SortBy(UnknownKey, us);
    rep := Report(listed, us, inventory, integrity, counts.(
      total := |collapsed| + |inventory| + |integrity|, inventory := |inventory|, integrity := |integrity|, unknownsTotal := |us|));
    assert IsReport(all, unknowns, rules, today, includeOK, collapsed, rep);
  }

  // ---- conservation ----

  /** Every record is in exactly one section. */
  lemma {:induction false} SectionsPartition(all: seq<Resolved>)
    ensures multiset(InSection(all, FindingSection)) + multiset(InSection(all, InventorySection))
          + multiset(InSection(all, IntegritySection)) == multiset(all)
  {
    hide SectionFor, InSection;
    if all == [] {
      NoSections();
    } else {
      var init, r := all[..|all| - 1], all[|all| - 1];
      SectionsPartition(init);
      assert all == init + [r];
      SectionGrows(init, r, FindingSection);
      SectionGrows(init, r, InventorySection);
      SectionGrows(init, r, IntegritySection);
    }
  }

  lemma NoSections()
    ensures forall s :: InSection([], s) == []
  {
  }

  lemma SectionGrows(init: seq<Resolved>, r: Resolved, s: Section)
    ensures multiset(InSection(init + [r], s)) == multiset(InSection(init, s)) + if SectionFor(r) == s then multiset{r} else multiset{}
  {
    hide SectionFor;
    assert (init + [r])[..|init|] == init;
  }

  lemma {:induction false} InSectionMeans(all: seq<Resolved>, s: Section, i: nat)
    requires i < |InSection(all, s)|
    ensures SectionFor(InSection(all, s)[i]) == s
  {
    hide SectionFor;
    var init := all[..|all| - 1];
    if i < |InSection(init, s)| { InSectionMeans(init, s, i); }
  }

  /**
   * The report conserves the records: they are split over the sections, the findings are grouped
   * without loss or repetition, and the total is the sum of the tiers and the two other sections.
   */
  lemma ReportConserves(
    all: seq<Resolved>, unknowns: seq<ExtractionUnknown>, rules: seq<Rule>, today: string, includeOK: bool,
    cs: seq<Finding>, rep: Report)
    requires IsReport(all, unknowns, rules, today, includeOK, cs, rep)
    ensures var c := rep.counts;
      && c.total == c.t1 + c.t2 + c.t3 + c.inventory + c.integrity
      && c.inventory == |rep.inventory| && c.integrity == |rep.integrity| && c.unknownsTotal == |rep.unknowns|
    ensures |InSection(all, FindingSection)| + |rep.inventory| + |rep.integrity| == |all|
    ensures var fs := AllFindings(rules, today, InSection(all, FindingSection));
      |cs| == |Keys(fs)| && multiset(Grouped(fs, Keys(fs))) == multiset(fs)
    ensures includeOK ==> multiset(rep.findings) == multiset(cs)
  {
    hide Tally, Rows, ResolvedUnknowns, ExtractionEntries, InSection, AllFindings, Keys, Grouped, IsGroup, IsSortOf;
    TallyCounts(cs);
    SectionsPartition(all);
    SizesAdd(InSection(all, FindingSection), InSection(all, InventorySection), InSection(all, IntegritySection), all);
    SortKeeps(RowKey, Rows(InSection(all, InventorySection)), rep.inventory);
    SortKeeps(RowKey, Rows(InSection(all, IntegritySection)), rep.integrity);
    SortKeeps(FindingKey, Listed(cs, includeOK), rep.findings);
    GroupsPartition(AllFindings(rules, today, InSection(all, FindingSection)));
    if includeOK { AllListed(cs); }
  }

  lemma SizesAdd(a: seq<Resolved>, b: seq<Resolved>, c: seq<Resolved>, all: seq<Resolved>)
    requires multiset(a) + multiset(b) + multiset(c) == multiset(all)
    ensures |a| + |b| + |c| == |all|
  {
    assert |multiset(a) + multiset(b) + multiset(c)| == |multiset(a)| + |multiset(b)| + |multiset(c)|;
  }

  lemma {:induction false} AllListed(cs: seq<Finding>)
    ensures Listed(cs, true) == cs
  {
    if cs != [] {
      AllListed(cs[..|cs| - 1]);
      assert cs == cs[..|cs| - 1] + [cs[|cs| - 1]];
    }
  }

  /** No reviewable record is hidden: its group's finding is at least as severe, carries its pin, and is ignored only with it. */
  lemma RecordIsReported(
    all: seq<Resolved>, unknowns: seq<ExtractionUnknown>, rules: seq<Rule>, today: string, includeOK: bool,
    cs: seq<Finding>, rep: Report, i: nat)
    returns (k: nat)
    requires IsReport(all, unknowns, rules, today, includeOK, cs, rep) && i < |InSection(all, FindingSection)|
    ensures var fs := AllFindings(rules, today, InSection(all, FindingSection));
      && k < |cs| == |Keys(fs)| && Keys(fs)[k] == KeyOf(fs[i])
      && Rank(cs[k].status) <= Rank(fs[i].status) && Normalized(cs[k].tier) <= Normalized(fs[i].tier)
      && (cs[k] == fs[i] || PinOf(fs[i]) in cs[k].pins)
      && (cs[k].ignored ==> fs[i].ignored)
      && (cs[k] in rep.findings <==> cs[k].status != "ok" || includeOK)
  {
    hide Tally, Listed, Rows, ResolvedUnknowns, ExtractionEntries, InSection, AllFindings, Keys, Grouped, Rank, IsMerge, KeyOf, Normalized,
      IsSortOf;
    var fs := AllFindings(rules, today, InSection(all, FindingSection));
    KeysAreDistinct(fs);
    assert KeyOf(fs[i]) in Keys(fs);
    k :| 0 <= k < |Keys(fs)| && Keys(fs)[k] == KeyOf(fs[i]);
    ListedIff(cs, includeOK, cs[k]);
    SortKeeps(FindingKey, Listed(cs, includeOK), rep.findings);
    var members := Members(fs, KeyOf(fs[i]));
    var m := FoundAmongMembers(fs, i);
    assert IsGroup(Keys(fs)[k], members, cs[k]);
    if |members| != 1 {
      MergeIsWorst(KeyOf(fs[i]), members, cs[k], m);
      MergedTierIsNormal(KeyOf(fs[i]), members, cs[k]);
    }
  }

  lemma {:induction false} ListedIff(cs: seq<Finding>, includeOK: bool, f: Finding)
    ensures f in Listed(cs, includeOK) <==> f in cs && (f.status != "ok" || includeOK)
  {
    if cs != [] {
      ListedIff(cs[..|cs| - 1], includeOK, f);
      assert f in cs <==> f in cs[..|cs| - 1] || f == cs[|cs| - 1];
    }
  }

  lemma MergedTierIsNormal(key: LogicalKey, members: seq<Finding>, m: Finding)
    requires IsMerge(key, members, m)
    ensures Normalized(m.tier) == m.tier
  {
  }

  lemma {:induction false} FoundAmongMembers(fs: seq<Finding>, i: nat) returns (m: nat)
    requires i < |fs|
    ensures m < |Members(fs, KeyOf(fs[i]))| && Members(fs, KeyOf(fs[i]))[m] == fs[i]
  {
    hide KeyOf;
    var init := fs[..|fs| - 1];
    if i < |init| {
      m := FoundAmongMembers(init, i);
    } else {
      m := |Members(init, KeyOf(fs[i]))|;
    }
  }

  /** Findings never have the integrity status, so the status tallies miss only unknown words. */
  lemma {:induction false} FindingsAreNotIntegrity(all: seq<Resolved>, rules: seq<Rule>, today: string, i: nat)
    requires i < |InSection(all, FindingSection)|
    ensures AllFindings(rules, today, InSection(all, FindingSection))[i].status != "integrity"
  {
    InSectionMeans(all, FindingSection, i);
  }

  // ---- the strict verdict ----

  datatype Verdict = Pass | OpenExtraction(count: nat) | Undeterminable(count: nat)

  ghost function OpenUnknowns(rules: seq<Rule>, today: string, us: seq<ExtractionUnknown>): (n: nat) {
    if us == [] then 0
    else OpenUnknowns(rules, today, us[..|us| - 1]) + if Covered(rules, us[|us| - 1].file, today) then 0 else 1
  }

  ghost predicate Open(rules: seq<Rule>, today: string, r: Resolved) {
    SectionFor(r) == FindingSection && r.status == "unknown" && !IgnoredRecord(rules, today, r)
  }

  ghost function OpenPins(rules: seq<Rule>, today: string, all: seq<Resolved>): (n: nat) {
    if all == [] then 0
    else OpenPins(rules, today, all[..|all| - 1]) + if Open(rules, today, all[|all| - 1]) then 1 else 0
  }

  ghost function StrictVerdict(
    strict: bool, all: seq<Resolved>, unknowns: seq<ExtractionUnknown>, rules: seq<Rule>, today: string): (v: Verdict)
  {
    if !strict then Pass
    else if OpenUnknowns(rules, today, unknowns) > 0 then OpenExtraction(OpenUnknowns(rules, today, unknowns))
    else if OpenPins(rules, today, all) > 0 then Undeterminable(OpenPins(rules, today, all))
    else Pass
  }

  method StrictFailure(strict: bool, all: seq<Resolved>, unknowns: seq<ExtractionUnknown>, rules: seq<Rule>, today: string)
    returns (v: Verdict)
    ensures v == StrictVerdict(strict, all, unknowns, rules, today)
  {
    hide SectionFor, Covered, Ignored;
    if !strict { return Pass; }
    var open := 0;
    var i := 0;
    while i < |unknowns|
      invariant 0 <= i <= |unknowns| && open == OpenUnknowns(rules, today, unknowns[..i])
    {
      assert unknowns[..i + 1][..i] == unknowns[..i];
      var covered := CoversFile(rules, unknowns[i].file, today);
      if !covered { open := open + 1; }
      i := i + 1;
    }
    assert unknowns[..i] == unknowns;
    if open > 0 { return OpenExtraction(open); }
    var undetermined := 0;
    i := 0;
    while i < |all|
      invariant 0 <= i <= |all| && undetermined == OpenPins(rules, today, all[..i])
    {
      assert all[..i + 1][..i] == all[..i];
      var r := all[i];
      i := i + 1;
      if SectionFor(r) != FindingSection { continue; }
      if r.status != "unknown" { continue; }
      var ignored := IsIgnoredOn(rules, FindingId(r.dep), r.dep.file, today);
      if ignored { continue; }
      undetermined := undetermined + 1;
    }
    assert all[..i] == all;
    if undetermined > 0 { return Undeterminable(undetermined); }
    return Pass;
  }

  lemma {:induction false} ClosedUnknowns(rules: seq<Rule>, today: string, us: seq<ExtractionUnknown>)
    ensures OpenUnknowns(rules, today, us) == 0 <==> forall e :: e in ExtractionEntries(rules, today, us) ==> e.ignored
  {
    hide Covered;
    if us != [] {
      var init, u := us[..|us| - 1], us[|us| - 1];
      ClosedUnknowns(rules, today, init);
      assert ExtractionEntries(rules, today, us) ==
        ExtractionEntries(rules, today, init) + [UnknownEntry("", u.file, u.reason, Covered(rules, u.file, today))];
    }
  }

  lemma {:induction false} ClosedPins(rules: seq<Rule>, today: string, all: seq<Resolved>)
    ensures OpenPins(rules, today, all) == 0 <==>
      forall e :: e in ResolvedUnknowns(rules, today, InSection(all, FindingSection)) ==> e.ignored
  {
    hide SectionFor, Ignored, AllFindings, Rows;
    if all != [] {
      var init, r := all[..|all| - 1], all[|all| - 1];
      ClosedPins(rules, today, init);
      assert all == init + [r];
      RouteStep(rules, today, init, r);
    }
  }

  /** Under strict, the run passes exactly when every unknown the report lists is ignored. */
  lemma StrictAgreesWithReport(
    all: seq<Resolved>, unknowns: seq<ExtractionUnknown>, rules: seq<Rule>, today: string, includeOK: bool,
    cs: seq<Finding>, rep: Report)
    requires IsReport(all, unknowns, rules, today, includeOK, cs, rep)
    ensures StrictVerdict(true, all, unknowns, rules, today) == Pass <==> forall e :: e in rep.unknowns ==> e.ignored
  {
    hide OpenUnknowns, OpenPins, IsCollapse, Tally, InSection, ResolvedUnknowns, ExtractionEntries, AllFindings, Rows, IsSortOf;
    ClosedUnknowns(rules, today, unknowns);
    ClosedPins(rules, today, all);
    var a, b := ResolvedUnknowns(rules, today, InSection(all, FindingSection)), ExtractionEntries(rules, today, unknowns);
    SortKeeps(UnknownKey, a + b, rep.unknowns);
    assert forall e :: e in rep.unknowns <==> e in a || e in b;
  }
}
