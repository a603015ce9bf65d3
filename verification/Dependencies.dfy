/** Pinned dependencies, their identity, the cache key derived from it, and deduplication. */
module Dependencies {
  import opened Options
  import opened Versions
  import opened Semver11

  datatype Dependency = Dependency(
    category: string, name: string, version: string, source: string, file: string,
    note: string, branch: string, digestPinned: bool, role: string)

  datatype DepKey = DepKey(category: string, name: string, source: string, version: string, file: string)

  const Separator := '\U{1f}'

  function Identity(d: Dependency): (k: DepKey) {
    DepKey(d.category, d.name, d.source, d.version, d.file)
  }

  /** The identity fields joined by the unit separator. */
  function KeyText(k: DepKey): (s: string) {
    k.category + [Separator] + (k.name + [Separator] + (k.source + [Separator] + (k.version + [Separator] + k.file)))
  }

  function CacheKey(d: Dependency): (s: string) {
    KeyText(Identity(d))
  }

  predicate SeparatorFree(k: DepKey) {
    Separator !in k.category && Separator !in k.name && Separator !in k.source && Separator !in k.version
  }

  lemma JoinInjective(a: string, s: string, b: string, t: string)
    requires Separator !in a && Separator !in b
    requires a + [Separator] + s == b + [Separator] + t
    ensures a == b && s == t
  {
    CutUnique(a, s, Separator);
    CutUnique(b, t, Separator);
  }

  /** Without the separator byte in its first four fields, an identity is recovered from its key. */
  lemma KeyIsUnambiguous(k: DepKey, l: DepKey)
    requires SeparatorFree(k) && SeparatorFree(l) && KeyText(k) == KeyText(l)
    ensures k == l
  {
    JoinInjective(k.category, k.name + [Separator] + (k.source + [Separator] + (k.version + [Separator] + k.file)),
                  l.category, l.name + [Separator] + (l.source + [Separator] + (l.version + [Separator] + l.file)));
    JoinInjective(k.name, k.source + [Separator] + (k.version + [Separator] + k.file),
                  l.name, l.source + [Separator] + (l.version + [Separator] + l.file));
    JoinInjective(k.source, k.version + [Separator] + k.file, l.source, l.version + [Separator] + l.file);
    JoinInjective(k.version, k.file, l.version, l.file);
  }

  /** How often the separator occurs. */
  function Separators(s: string): (n: nat) {
    if s == "" then 0 else Separators(s[..|s| - 1]) + if s[|s| - 1] == Separator then 1 else 0
  }

  lemma {:induction false} SeparatorsConcat(a: string, b: string)
    ensures Separators(a + b) == Separators(a) + Separators(b)
  {
    if b == "" {
      assert a + b == a;
    } else {
      SeparatorsConcat(a, b[..|b| - 1]);
      assert (a + b)[..|a + b| - 1] == a + b[..|b| - 1];
    }
  }

  lemma {:induction false} NoSeparators(s: string)
    ensures Separators(s) == 0 <==> Separator !in s
  {
    if s != "" {
      NoSeparators(s[..|s| - 1]);
      assert s == s[..|s| - 1] + [s[|s| - 1]];
    }
  }

  lemma JoinedSeparators(a: string, s: string)
    ensures Separators(a + [Separator] + s) == Separators(a) + 1 + Separators(s)
  {
    SeparatorsConcat(a + [Separator], s);
    SeparatorsConcat(a, [Separator]);
    assert Separators([Separator]) == 1 by { assert [Separator][..0] == ""; }
  }

  lemma KeySeparators(k: DepKey)
    ensures Separators(KeyText(k)) ==
      4 + Separators(k.category) + Separators(k.name) + Separators(k.source) + Separators(k.version) + Separators(k.file)
  {
    hide Separators;
    var s3 := k.version + [Separator] + k.file;
    var s2 := k.source + [Separator] + s3;
    var s1 := k.name + [Separator] + s2;
    JoinedSeparators(k.version, k.file);
    JoinedSeparators(k.source, s3);
    JoinedSeparators(k.name, s2);
    JoinedSeparators(k.category, s1);
  }

  predicate NoSeparatorAnywhere(k: DepKey) {
    SeparatorFree(k) && Separator !in k.file
  }

  lemma CleanKeyCounts(k: DepKey)
    ensures NoSeparatorAnywhere(k) <==> Separators(KeyText(k)) == 4
  {
    KeySeparators(k);
    NoSeparators(k.category);
    NoSeparators(k.name);
    NoSeparators(k.source);
    NoSeparators(k.version);
    NoSeparators(k.file);
  }

  /** Where a field is cut at one of its separators. */
  function CutField(s: string): (r: (string, string))
    requires Separator in s
    ensures s == r.0 + [Separator] + r.1
  {
    var c := CutAt(s, Separator);
    (c.before, c.after)
  }

  /** Another identity with the same key: a field boundary moved to a separator inside a field. */
  function Moved(k: DepKey): (l: DepKey)
    requires !NoSeparatorAnywhere(k)
  {
    if Separator in k.category then
      var (x, y) := CutField(k.category);
      k.(category := x, name := y + [Separator] + k.name)
    else if Separator in k.name then
      var (x, y) := CutField(k.name);
      k.(name := x, source := y + [Separator] + k.source)
    else if Separator in k.source then
      var (x, y) := CutField(k.source);
      k.(source := x, version := y + [Separator] + k.version)
    else if Separator in k.version then
      var (x, y) := CutField(k.version);
      k.(version := x, file := y + [Separator] + k.file)
    else
      var (x, y) := CutField(k.file);
      k.(version := k.version + [Separator] + x, file := y)
  }

  lemma Regroup(x: string, y: string, r: string)
    ensures x + [Separator] + y + [Separator] + r == x + [Separator] + (y + [Separator] + r)
  {
  }

  lemma MovedCollides(k: DepKey)
    requires !NoSeparatorAnywhere(k)
    ensures Moved(k) != k && KeyText(Moved(k)) == KeyText(k)
  {
    hide CutField;
    var s3 := k.version + [Separator] + k.file;
    var s2 := k.source + [Separator] + s3;
    var s1 := k.name + [Separator] + s2;
    if Separator in k.category {
      var (x, y) := CutField(k.category);
      Regroup(x, y, s1);
      Regroup(y, k.name, s2);
      assert |x| < |k.category|;
    } else if Separator in k.name {
      var (x, y) := CutField(k.name);
      Regroup(x, y, s2);
      Regroup(y, k.source, s3);
      assert |x| < |k.name|;
    } else if Separator in k.source {
      var (x, y) := CutField(k.source);
      Regroup(x, y, s3);
      Regroup(y, k.version, k.file);
      assert |x| < |k.source|;
    } else if Separator in k.version {
      var (x, y) := CutField(k.version);
      Regroup(x, y, k.file);
      assert |x| < |k.version|;
    } else {
      var (x, y) := CutField(k.file);
      Regroup(k.version, x, y);
      assert |y| < |k.file|;
    }
  }

  /** A key names one identity only, exactly when none of that identity's five fields holds the separator. */
  lemma KeyNamesOneIdentity(k: DepKey)
    ensures (forall l :: KeyText(l) == KeyText(k) ==> l == k) <==> NoSeparatorAnywhere(k)
  {
    hide KeyText, Separators;
    if NoSeparatorAnywhere(k) {
      forall l | KeyText(l) == KeyText(k) ensures l == k {
        CleanKeyCounts(k);
        CleanKeyCounts(l);
        KeyIsUnambiguous(k, l);
      }
    } else {
      MovedCollides(k);
    }
  }

  ghost predicate Distinct(deps: seq<Dependency>) {
    forall i, j :: 0 <= i < j < |deps| ==> Identity(deps[i]) != Identity(deps[j])
  }

  /** The dependencies whose identity did not occur before them. */
  function Firsts(deps: seq<Dependency>): (r: seq<Dependency>) {
    if deps == [] then []
    else
      var k := |deps| - 1;
      if exists i :: 0 <= i < k && Identity(deps[i]) == Identity(deps[k]) then Firsts(deps[..k])
      else Firsts(deps[..k]) + [deps[k]]
  }

  ghost function Identities(deps: seq<Dependency>): (ks: set<DepKey>) {
    set d | d in deps :: Identity(d)
  }

  lemma IdentitiesAppend(deps: seq<Dependency>, d: Dependency)
    ensures Identities(deps + [d]) == Identities(deps) + {Identity(d)}
  {
    assert forall e :: e in deps + [d] <==> e in deps || e == d;
  }

  /** `d` stands at some place of `deps` before which its identity does not occur. */
  ghost predicate IsFirst(deps: seq<Dependency>, d: Dependency) {
    exists i :: 0 <= i < |deps| && deps[i] == d && Identity(d) !in Identities(deps[..i])
  }

  lemma FirstInLonger(deps: seq<Dependency>, last: Dependency, d: Dependency)
    requires IsFirst(deps, d)
    ensures IsFirst(deps + [last], d)
  {
    var i :| 0 <= i < |deps| && deps[i] == d && Identity(d) !in Identities(deps[..i]);
    assert (deps + [last])[..i] == deps[..i] && (deps + [last])[i] == d;
  }

  lemma {:induction false} FirstsAreFirst(deps: seq<Dependency>)
    ensures forall d :: d in Firsts(deps) ==> IsFirst(deps, d)
  {
    if deps != [] {
      var n := |deps| - 1;
      var d, init := deps[n], deps[..n];
      FirstsAreFirst(init);
      assert deps == init + [d];
      forall e | e in Firsts(init) ensures IsFirst(deps, e) {
        FirstInLonger(init, d, e);
      }
      if !exists i :: 0 <= i < n && Identity(deps[i]) == Identity(d) {
        assert Identity(d) !in Identities(init);
        assert IsFirst(deps, d);
      }
    }
  }

  /** Keeping the first occurrences drops exactly the repeats: same identities, each once. */
  lemma {:induction false} FirstsAreDistinct(deps: seq<Dependency>)
    ensures Distinct(Firsts(deps))
    ensures Identities(Firsts(deps)) == Identities(deps)
  {
    if deps != [] {
      var n := |deps| - 1;
      var d, init := deps[n], deps[..n];
      FirstsAreDistinct(init);
      assert deps == init + [d];
      IdentitiesAppend(init, d);
      if exists i :: 0 <= i < n && Identity(deps[i]) == Identity(d) {
        var i :| 0 <= i < n && Identity(deps[i]) == Identity(d);
        assert init[i] in init;
      } else {
        assert Identity(d) !in Identities(Firsts(init));
        IdentitiesAppend(Firsts(init), d);
      }
    }
  }

  method Dedupe(deps: seq<Dependency>) returns (unique: seq<Dependency>)
    ensures unique == Firsts(deps)
  {
    var seen: set<DepKey> := {};
    unique := [];
    var i := 0;
    while i < |deps|
      invariant 0 <= i <= |deps|
      invariant unique == Firsts(deps[..i])
      invariant forall k :: k in seen <==> exists j :: 0 <= j < i && Identity(deps[j]) == k
    {
      var key := Identity(deps[i]);
      assert deps[..i + 1][..i] == deps[..i];
      assert forall j :: 0 <= j < i ==> deps[..i + 1][j] == deps[j];
      if key !in seen {
        seen := seen + {key};
        unique := unique + [deps[i]];
      }
      i := i + 1;
    }
    assert deps[..i] == deps;
  }
}
