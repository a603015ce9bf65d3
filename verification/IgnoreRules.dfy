/** The ignore rules of deps-ignore.json, matched by id, file scope and expiry date. */
module IgnoreRules {
  import opened Orders

  datatype Rule = Rule(id: string, file: string, until: string, malformedUntil: bool, emptyReason: bool)

  /** A rule in force on a calendar date; malformed and unjustified rules never are. */
  predicate Live(r: Rule, today: string) {
    !r.malformedUntil && !r.emptyReason && (r.until == "" || CompareStrings(today, r.until) <= 0)
  }

  predicate Matches(r: Rule, id: string, file: string) {
    r.id == id && (r.file == "" || r.file == file)
  }

  ghost predicate Ignored(rules: seq<Rule>, id: string, file: string, today: string) {
    exists i :: 0 <= i < |rules| && Matches(rules[i], id, file) && Live(rules[i], today)
  }

  ghost predicate Covered(rules: seq<Rule>, file: string, today: string) {
    exists i :: 0 <= i < |rules| && rules[i].file != "" && rules[i].file == file && Live(rules[i], today)
  }

  method IsIgnoredOn(rules: seq<Rule>, id: string, file: string, today: string) returns (yes: bool)
    ensures yes == Ignored(rules, id, file, today)
  {
    var i := 0;
    while i < |rules|
      invariant 0 <= i <= |rules|
      invariant forall j :: 0 <= j < i ==> !(Matches(rules[j], id, file) && Live(rules[j], today))
    {
      var rule := rules[i];
      i := i + 1;
      if rule.id != id { continue; }
      if rule.file != "" && rule.file != file { continue; }
      if rule.malformedUntil { continue; }
      if rule.emptyReason { continue; }
      if rule.until != "" && CompareStrings(today, rule.until) > 0 { continue; }
      return true;
    }
    return false;
  }

  method CoversFile(rules: seq<Rule>, file: string, today: string) returns (yes: bool)
    ensures yes == Covered(rules, file, today)
  {
    var i := 0;
    while i < |rules|
      invariant 0 <= i <= |rules|
      invariant forall j :: 0 <= j < i ==> !(rules[j].file != "" && rules[j].file == file && Live(rules[j], today))
    {
      var rule := rules[i];
      i := i + 1;
      if rule.file == "" || rule.file != file { continue; }
      if rule.malformedUntil { continue; }
      if rule.emptyReason { continue; }
      if rule.until != "" && CompareStrings(today, rule.until) > 0 { continue; }
      return true;
    }
    return false;
  }

  /** Rules only run out: what is ignored on a day was ignored on every day before it. */
  lemma IgnoredOnlyExpires(rules: seq<Rule>, id: string, file: string, earlier: string, later: string)
    requires CompareStrings(earlier, later) <= 0 && Ignored(rules, id, file, later)
    ensures Ignored(rules, id, file, earlier)
  {
    hide CompareStrings;
    var i :| 0 <= i < |rules| && Matches(rules[i], id, file) && Live(rules[i], later);
    StringOrder();
    assert Live(rules[i], earlier);
  }
}
