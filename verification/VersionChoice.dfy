/** What check-deps builds on the version order: picking the latest version and spotting breaking bumps. */
module VersionChoice {
  import opened Orders
  import opened Decimals
  import opened Versions
  import opened Semver11

  datatype Choice = Chosen(version: string) | NoChoice

  // ---------------------------------------------------------------- latest version

  /** The first of the greatest versions, or none for an empty list. */
  method LatestOf(versions: seq<string>, cmp: Comparator<string>) returns (r: Choice)
    requires IsTotalPreorder(cmp)
    ensures r.NoChoice? <==> versions == []
    ensures r.Chosen? ==> exists k ::
        && 0 <= k < |versions| && versions[k] == r.version
        && (forall j :: 0 <= j < k ==> cmp(versions[j], r.version) < 0)
        && (forall j :: k < j < |versions| ==> cmp(versions[j], r.version) <= 0)
  {
    hide IsTotalPreorder;
    if |versions| == 0 {
      return NoChoice;
    }
    var latest := versions[0];
    ghost var k := 0;
    var i := 1;
    while i < |versions|
      invariant 0 <= k < i <= |versions| && versions[k] == latest
      invariant forall j :: 0 <= j < k ==> cmp(versions[j], latest) < 0
      invariant forall j :: k < j < i ==> cmp(versions[j], latest) <= 0
    {
      var v := versions[i];
      if cmp(v, latest) > 0 {
        forall j | 0 <= j < i
          ensures cmp(versions[j], v) < 0
        {
          Antisymmetric(cmp, latest, v);
          StrictlyBelow(cmp, versions[j], latest, v);
        }
        latest, k := v, i;
      }
      i := i + 1;
    }
    return Chosen(latest);
  }

  lemma Antisymmetric(cmp: Comparator<string>, x: string, y: string)
    requires IsTotalPreorder(cmp)
    ensures cmp(x, y) == -cmp(y, x) && cmp(x, x) == 0
  {
    assert cmp(x, x) == -cmp(x, x);
  }

  lemma NotAbove(cmp: Comparator<string>, x: string, y: string, z: string)
    requires IsTotalPreorder(cmp)
    ensures cmp(x, x) == 0
    ensures cmp(x, y) <= 0 && cmp(z, y) > 0 ==> cmp(x, z) <= 0
  {
    assert cmp(x, x) == -cmp(x, x) && cmp(y, z) == -cmp(z, y);
  }

  lemma StrictlyBelow(cmp: Comparator<string>, x: string, y: string, z: string)
    requires IsTotalPreorder(cmp)
    requires cmp(x, y) <= 0 && cmp(y, z) < 0
    ensures cmp(x, z) < 0
  {
    assert cmp(z, x) <= 0 ==> cmp(z, y) <= 0;
    assert cmp(z, y) == -cmp(y, z) && cmp(x, z) == -cmp(z, x);
  }

  /** The order's least version is also the sentinel of LatestNonYanked. */
  lemma EmptyIsLeast(v: string)
    ensures SemverOrder("", v) <= 0
  {
    hide ChunkOrder, PrereleaseOrder, SplitCoreAndPre, Run;
    CoreStartsWithDigit("");
    CoreStartsWithDigit(v);
    EndIsLowest("", SplitCoreAndPre(v).before);
  }

  /** A stripped version starts with a digit, so only an empty one has an empty core. */
  lemma CoreStartsWithDigit(v: string)
    ensures var x := SplitCoreAndPre(v);
      if Behind(NotDigit, v) == "" then x == Cut("", "", false) else x.before != "" && IsDigit(x.before[0])
  {
    var s := Behind(NotDigit, v);
    if s != "" {
      var t := CutAt(s, '+').before;
      assert t[0] == s[0];
      assert CutAt(t, '-').before[0] == t[0];
    }
  }

  /** A greatest version among those not yanked; empty entries never win. */
  method LatestNonYanked(versions: seq<string>, yanked: map<string, string>) returns (r: Choice)
    ensures r.Chosen? ==> r.version in versions && r.version !in yanked
    ensures r.Chosen? ==> forall v :: v in versions && v !in yanked ==> SemverOrder(v, r.version) <= 0
    ensures r.NoChoice? <==> forall v :: v in versions && v !in yanked ==> v == ""
  {
    hide SemverOrder, IsTotalPreorder;
    SemverOrderIsTotalPreorder();
    if |versions| == 0 {
      return NoChoice;
    }
    var latest := "";
    var i := 0;
    while i < |versions|
      invariant 0 <= i <= |versions|
      invariant latest != "" ==> latest in versions && latest !in yanked
      invariant forall j :: 0 <= j < i && versions[j] !in yanked ==> SemverOrder(versions[j], latest) <= 0
      invariant latest == "" ==> forall j :: 0 <= j < i && versions[j] !in yanked ==> versions[j] == ""
    {
      var v := versions[i];
      if v !in yanked {
        Antisymmetric(SemverOrder, v, v);
        if latest == "" {
          EmptyIsLeast(v);
          latest := v;
        } else {
          EmptyIsLeast(latest);
          var c := CompareSemver(v, latest);
          if c > 0 {
            forall j | 0 <= j < i && versions[j] !in yanked
              ensures SemverOrder(versions[j], v) <= 0
            {
              NotAbove(SemverOrder, versions[j], latest, v);
            }
            latest := v;
          }
        }
      }
      i := i + 1;
    }
    if latest == "" {
      return NoChoice;
    }
    return Chosen(latest);
  }

  // ---------------------------------------------------------------- breaking bumps

  const MaxInt := 0x7fff_ffff_ffff_ffff

  datatype Parsed = Parsed(n: nat, ok: bool)

  /** The leading digit run as a 64-bit integer; not ok when there is none or it overflows. */
  function LeadingInt(s: string): (r: Parsed)
    ensures r.ok ==> r.n == LeadingNumber(s) <= MaxInt && Run(IsDigit, s) != ""
    ensures !r.ok ==> r.n == 0
  {
    var digits := Run(IsDigit, s);
    if digits == "" then Parsed(0, false)
    else
      TrimZerosValue(digits);
      var digits := TrimZeros(digits);
      if digits == "" then Parsed(0, true)
      else if Value(digits) > MaxInt then Parsed(0, false)
      else Parsed(Value(digits), true)
  }

  datatype NumericCore = NumericCore(major: nat, minor: nat, ok: bool, minorSet: bool, minorValid: bool)

  function FirstTwoNumeric(s: string): (r: NumericCore) {
    var parts := Split(CoreVersion(s), '.');
    var major := LeadingInt(parts[0]);
    if !major.ok then NumericCore(0, 0, false, false, false)
    else if |parts| > 1 then
      var minor := LeadingInt(parts[1]);
      NumericCore(major.n, minor.n, true, true, minor.ok)
    else NumericCore(major.n, 0, true, false, false)
  }

  predicate IsBreakingBump(cur: string, latest: string) {
    var c, l := FirstTwoNumeric(cur), FirstTwoNumeric(latest);
    if !c.ok || !l.ok then false
    else if c.major == 0 && l.major == 0 then
      if (c.minorSet && !c.minorValid) || (l.minorSet && !l.minorValid) then false
      else l.minor > c.minor
    else l.major > c.major
  }

  /** The core up to and including its first dot, or all of it. */
  function Head(core: string): (h: string) {
    var c := CutAt(core, '.');
    if c.found then c.before + "." else core
  }

  /** Everything behind the first dot. */
  function Tail(core: string): (t: string) {
    CutAt(core, '.').after
  }

  lemma RunBeforeCut(s: string)
    ensures Run(IsDigit, CutAt(s, '.').before) == Run(IsDigit, s)
  {
    hide CutAt;
    var b := CutAt(s, '.').before;
    var d := Run(IsDigit, b);
    assert s[..|b|] == b;
    assert forall i :: 0 <= i < |d| ==> s[i] == d[i];
    RunUnique(IsDigit, s, |d|);
  }

  /** What FirstTwoNumeric reads, in terms of the core's head and tail. */
  lemma FirstTwoNumericReads(s: string)
    ensures var core, r := CoreVersion(s), FirstTwoNumeric(s);
      && (r.ok ==> core != "" && r.major == LeadingNumber(core))
      && (r.ok && r.minorSet ==> '.' in core)
      && (r.ok && r.minorSet && r.minorValid ==> Tail(core) != "" && r.minor == LeadingNumber(Tail(core)))
      && (r.ok && !r.minorSet ==> '.' !in core && r.minor == 0)
  {
    hide CutAt, CoreVersion, LeadingInt, Run, Value;
    var core := CoreVersion(s);
    var c := CutAt(core, '.');
    RunBeforeCut(core);
    if c.found {
      RunBeforeCut(c.after);
      assert Split(core, '.')[1] == CutAt(c.after, '.').before;
    }
  }

  /** Behind a dot the key starts afresh. */
  lemma {:induction false} KeyAfterDot(u: string, r: string)
    requires u != "" && u[|u| - 1] == '.'
    ensures Key(u + r) == Key(u) + Key(r)
    decreases |u|
  {
    hide Value, Key, WordKey;
    var s := u + r;
    var d := |Run(IsDigit, u)|;
    assert d < |u|;
    assert forall i :: 0 <= i < d ==> s[i] == Run(IsDigit, u)[i];
    RunUnique(IsDigit, s, d);
    assert s[..d] == Run(IsDigit, u);
    var v := u[d..];
    assert Behind(IsDigit, s) == v + r;
    WordKeyAfterDot(v, r);
    KeySplit(u);
    KeySplit(s);
    var n := [Number(LeadingNumber(u))];
    assert n + (WordKey(v) + Key(r)) == (n + WordKey(v)) + Key(r);
  }

  lemma KeySplit(s: string)
    requires s != ""
    ensures Key(s) == [Number(LeadingNumber(s))] + WordKey(Behind(IsDigit, s))
  {
  }

  lemma WordKeySplit(s: string)
    requires s != "" && !IsDigit(s[0])
    ensures WordKey(s) == if IsLetter(s[0]) then [Letters(Run(IsLetter, s))] + Key(Behind(IsLetter, s)) else [Separator(s[0])] + Key(s[1..])
    ensures IsLetter(s[0]) ==> Run(IsLetter, s) != ""
  {
  }

  lemma LettersBeforeDot(u: string, r: string)
    requires u != "" && u[|u| - 1] == '.' && IsLetter(u[0])
    ensures Run(IsLetter, u + r) == Run(IsLetter, u) && Behind(IsLetter, u + r) == Behind(IsLetter, u) + r
    ensures var v := Behind(IsLetter, u); 0 < |v| < |u| && v[|v| - 1] == '.'
  {
    var s, w := u + r, Run(IsLetter, u);
    var d := |w|;
    assert d < |u|;
    assert forall i :: 0 <= i < d ==> s[i] == w[i];
    RunUnique(IsLetter, s, d);
    assert s[..d] == w && s[d..] == u[d..] + r;
  }

  lemma {:induction false} WordKeyAfterDot(u: string, r: string)
    requires u != "" && u[|u| - 1] == '.' && !IsDigit(u[0])
    ensures WordKey(u + r) == WordKey(u) + Key(r)
    decreases |u|, 0
  {
    hide Value, Key, WordKey, Run;
    var s := u + r;
    WordKeySplit(u);
    WordKeySplit(s);
    if IsLetter(u[0]) {
      var w, v := Run(IsLetter, u), Behind(IsLetter, u);
      LettersBeforeDot(u, r);
      KeyAfterDot(v, r);
      assert [Letters(w)] + (Key(v) + Key(r)) == ([Letters(w)] + Key(v)) + Key(r);
    } else {
      assert s[1..] == u[1..] + r;
      if |u| == 1 {
        assert u[1..] == "" && "" + r == r;
        EmptyKey();
        assert [Separator(u[0])] + Key(r) == [Separator(u[0])] + [] + Key(r);
      } else {
        KeyAfterDot(u[1..], r);
        assert [Separator(u[0])] + (Key(u[1..]) + Key(r)) == ([Separator(u[0])] + Key(u[1..])) + Key(r);
      }
    }
  }

  lemma EmptyKey()
    ensures Key("") == []
  {
  }

  /** A dot at the end of a string, and nowhere else, shows as the last token of its key, and nowhere else. */
  lemma {:induction false} DotToken(u: string)
    requires forall i :: 0 <= i < |u| - 1 ==> u[i] != '.'
    ensures var k := Key(u);
      && (forall i :: 0 <= i < |k| - 1 ==> k[i] != Separator('.'))
      && ((u != "" && u[|u| - 1] == '.') <==> (k != [] && k[|k| - 1] == Separator('.')))
    decreases |u|, 1
  {
    hide Value, Key, WordKey;
    EmptyKey();
    if u != "" {
      var v := Behind(IsDigit, u);
      KeySplit(u);
      WordDotToken(v);
      assert v != "" ==> v[|v| - 1] == u[|u| - 1];
      assert v == "" ==> IsDigit(u[|u| - 1]);
    }
  }

  lemma {:induction false} WordDotToken(u: string)
    requires u == "" || !IsDigit(u[0])
    requires forall i :: 0 <= i < |u| - 1 ==> u[i] != '.'
    ensures var k := WordKey(u);
      && (forall i :: 0 <= i < |k| - 1 ==> k[i] != Separator('.'))
      && ((u != "" && u[|u| - 1] == '.') <==> (k != [] && k[|k| - 1] == Separator('.')))
    decreases |u|, 0
  {
    hide Value, Key, WordKey;
    if u == "" {
      EmptyWordKey();
    } else {
      WordKeySplit(u);
      var v := if IsLetter(u[0]) then Behind(IsLetter, u) else u[1..];
      var t := if IsLetter(u[0]) then Letters(Run(IsLetter, u)) else Separator(u[0]);
      assert |v| < |u| && v == u[|u| - |v|..];
      DotToken(v);
      assert WordKey(u) == [t] + Key(v);
      assert v != "" ==> v[|v| - 1] == u[|u| - 1];
      if v == "" {
        EmptyKey();
        assert IsLetter(u[0]) ==> IsLetter(u[|u| - 1]);
      } else {
        KeyNonempty(v);
      }
    }
  }

  lemma EmptyWordKey()
    ensures WordKey("") == []
  {
  }

  lemma KeyNonempty(s: string)
    requires s != ""
    ensures Key(s) != []
  {
  }

  lemma FirstDifference<T>(a: seq<T>, b: seq<T>) returns (k: nat)
    requires !(a <= b) && !(b <= a)
    ensures k < |a| && k < |b| && a[..k] == b[..k] && a[k] != b[k]
  {
    k := 0;
    while k < |a| && k < |b| && a[k] == b[k]
      invariant k <= |a| && k <= |b| && a[..k] == b[..k]
    {
      k := k + 1;
    }
  }

  /** When neither key is a prefix of the other, nothing behind them matters. */
  lemma KeysDecide(a: seq<Token>, a': seq<Token>, b: seq<Token>, b': seq<Token>)
    requires !(a <= b) && !(b <= a)
    ensures Lex(CompareToken, a + a', b + b') == Lex(CompareToken, a, b) != 0
  {
    hide Lex, CompareToken;
    var k := FirstDifference(a, b);
    TokenLaws(a[k], b[k], b[k]);
    TokenOrder();
    LexDecided(CompareToken, a, b, a', b', k);
  }

  lemma PrefixIsOlder(a: seq<Token>, b: seq<Token>)
    requires a < b
    ensures Lex(CompareToken, a, b) == -1
  {
    TokenOrder();
    LexCommonPrefix(CompareToken, a, [], b[|a|..]);
    assert a + [] == a && a + b[|a|..] == b;
  }

  /** A core without a dot against one with a dot: the heads decide. */
  lemma HeadOfUndotted(cur: string, latest: string)
    requires '.' !in cur && '.' in latest
    ensures ChunkOrder(cur, latest) < 0 <==> ChunkOrder(Head(cur), Head(latest)) <= 0
  {
    hide Key, Lex, CutAt;
    var l := CutAt(latest, '.');
    var b, r := Key(Head(latest)), Key(l.after);
    assert latest == Head(latest) + l.after;
    KeyAfterDot(Head(latest), l.after);
    var a := Key(cur);
    DotToken(cur);
    DotToken(Head(latest));
    assert b[|b| - 1] == Separator('.');
    assert !(b <= a);
    if a <= b {
      PrefixIsOlder(a, b);
      PrefixIsOlder(a, b + r);
    } else {
      KeysDecide(a, [], b, r);
      assert a + [] == a;
      LexBounds(a, b);
    }
  }

  lemma LexBounds(a: seq<Token>, b: seq<Token>)
    ensures -1 <= Lex(CompareToken, a, b) <= 1
    ensures Lex(CompareToken, a, b) == 0 <==> a == b
  {
    TokenOrder();
    LexAntisymmetric(CompareToken, a, b);
    LexReflexive(CompareToken, a);
    if Lex(CompareToken, a, b) == 0 {
      LexExact(CompareToken, a, b);
    }
  }

  /** Two cores with a dot: the heads decide, and behind equal heads the tails do. */
  lemma HeadOfDotted(cur: string, latest: string)
    requires '.' in cur && '.' in latest
    ensures ChunkOrder(cur, latest) ==
      if ChunkOrder(Head(cur), Head(latest)) != 0 then ChunkOrder(Head(cur), Head(latest))
      else ChunkOrder(Tail(cur), Tail(latest))
  {
    hide Key, Lex, CutAt;
    var c, l := CutAt(cur, '.'), CutAt(latest, '.');
    var a, b := Key(Head(cur)), Key(Head(latest));
    assert cur == Head(cur) + c.after && latest == Head(latest) + l.after;
    KeyAfterDot(Head(cur), c.after);
    KeyAfterDot(Head(latest), l.after);
    DotToken(Head(cur));
    DotToken(Head(latest));
    LexBounds(a, b);
    assert a[|a| - 1] == b[|b| - 1] == Separator('.');
    if a == b {
      TokenOrder();
      LexCommonPrefix(CompareToken, a, Key(c.after), Key(l.after));
    } else {
      assert !(a <= b) && !(b <= a);
      KeysDecide(a, Key(c.after), b, Key(l.after));
    }
  }

  /** The leading numbers of nonempty strings decide first. */
  lemma NumbersDecide(a: string, b: string)
    requires a != "" && b != "" && LeadingNumber(a) != LeadingNumber(b)
    ensures ChunkOrder(a, b) == Sign(LeadingNumber(a) - LeadingNumber(b))
  {
    hide ChunkOrder, LeadingNumber;
    DropNumbers(a, b);
  }

  lemma HeadNumber(core: string)
    requires core != ""
    ensures Head(core) != "" && LeadingNumber(Head(core)) == LeadingNumber(core)
  {
    hide CutAt, Value;
    var c := CutAt(core, '.');
    RunBeforeCut(core);
    if c.found {
      RunBeforeCut(Head(core));
      CutUnique(c.before, "", '.');
      assert Head(core) == c.before + ['.'] + "";
    }
  }

  /**
   * A bump reported as breaking is an upgrade under CompareSemver exactly when the head of the
   * current core does not sort above the head of the latest one.
   */
  lemma BreakingBumpIsUpgrade(cur: string, latest: string)
    requires IsBreakingBump(cur, latest)
    ensures SemverOrder(cur, latest) < 0
       <==> ChunkOrder(Head(CoreVersion(cur)), Head(CoreVersion(latest))) <= 0
  {
    hide ChunkOrder, PrereleaseOrder, Head, Tail, LeadingNumber, CutAt;
    var x, y := CoreVersion(cur), CoreVersion(latest);
    FirstTwoNumericReads(cur);
    FirstTwoNumericReads(latest);
    CoresDecide(cur, latest);
    var c, l := FirstTwoNumeric(cur), FirstTwoNumeric(latest);
    if c.major != l.major {
      HeadNumber(x);
      HeadNumber(y);
      NumbersDecide(x, y);
      NumbersDecide(Head(x), Head(y));
    } else if c.minorSet {
      HeadOfDotted(x, y);
      NumbersDecide(Tail(x), Tail(y));
      ChunkBounds(Head(x), Head(y));
    } else {
      HeadOfUndotted(x, y);
      UndottedDiffers(x, y);
    }
  }

  lemma ChunkBounds(a: string, b: string)
    ensures -1 <= ChunkOrder(a, b) <= 1
  {
    LexBounds(Key(a), Key(b));
  }

  lemma UndottedDiffers(x: string, y: string)
    requires '.' !in x && '.' in y
    ensures ChunkOrder(x, y) != 0
  {
    hide Key, CutAt, Lex;
    var c := CutAt(y, '.');
    var h := c.before + ".";
    assert y == h + c.after;
    KeyAfterDot(h, c.after);
    DotToken(h);
    DotToken(x);
    var k := Key(h);
    assert Key(y)[|k| - 1] == Separator('.');
    LexBounds(Key(x), Key(y));
  }

  lemma CoresDecide(a: string, b: string)
    ensures var c := ChunkOrder(CoreVersion(a), CoreVersion(b)); c != 0 ==> SemverOrder(a, b) == c
  {
  }

  /** The head of a core is nothing but its major number. */
  predicate PlainMajor(core: string) {
    AllDigits(CutAt(core, '.').before)
  }

  /** On plain cores every breaking bump is an upgrade. */
  lemma PlainBreakingBumpIsUpgrade(cur: string, latest: string)
    requires IsBreakingBump(cur, latest)
    requires PlainMajor(CoreVersion(cur)) && PlainMajor(CoreVersion(latest))
    ensures SemverOrder(cur, latest) < 0
  {
    hide ChunkOrder, SemverOrder, CutAt, LeadingNumber, Head;
    var x, y := CoreVersion(cur), CoreVersion(latest);
    BreakingBumpIsUpgrade(cur, latest);
    FirstTwoNumericReads(cur);
    FirstTwoNumericReads(latest);
    var c, l := FirstTwoNumeric(cur), FirstTwoNumeric(latest);
    HeadNumber(x);
    HeadNumber(y);
    if c.major != l.major {
      NumbersDecide(Head(x), Head(y));
    } else {
      DropNumbers(Head(x), Head(y));
      PlainHead(x);
      PlainHead(y);
      DotOrder();
    }
  }

  lemma PlainHead(core: string)
    requires PlainMajor(core)
    ensures Behind(IsDigit, Head(core)) == if '.' in core then "." else ""
  {
    hide CutAt;
    var h := Head(core);
    RunUnique(IsDigit, h, |CutAt(core, '.').before|);
  }

  lemma DotOrder()
    ensures ChunkOrder("", "") == 0 && ChunkOrder("", ".") == -1 && ChunkOrder(".", ".") == 0
  {
    EndIsLowest("", "");
    EndIsLowest("", ".");
    LexBounds(Key("."), Key("."));
  }

  /** Behind equal numbers a letter run sorts above a dot. */
  lemma LettersBeatDot(digits: string, word: string, a: string, b: string)
    requires digits != "" && AllDigits(digits)
    requires word != "" && forall i :: 0 <= i < |word| ==> IsLetter(word[i])
    ensures ChunkOrder(digits + (word + ("." + a)), digits + ("." + b)) == 1
  {
    hide ChunkOrder, LeadingNumber, Value;
    var s, t := word + ("." + a), "." + b;
    LeadingInFront(digits, s);
    LeadingInFront(digits, t);
    DropNumbers(digits + s, digits + t);
    LettersInFront(word, "." + a);
    RunUnique(IsLetter, t, 0);
    DropLetters(s, t);
  }

  /** Without a plain core it can fail: "0rc.1" to "0.2" is reported as breaking yet sorts as a downgrade. */
  lemma BreakingBumpCanBeDowngrade()
    ensures IsBreakingBump("0rc.1", "0.2") && SemverOrder("0rc.1", "0.2") == 1
  {
    hide SemverOrder, ChunkOrder, FirstTwoNumeric, CoreVersion;
    var cur, latest := "0rc.1", "0.2";
    ReadVersion("0", "rc", "1");
    ReadVersion("0", "", "2");
    assert "0" + "rc" + "." + "1" == cur && "0" + "" + "." + "2" == latest;
    CoresDecide(cur, latest);
    LettersBeatDot("0", "rc", "1", "2");
    assert "0" + ("rc" + ("." + "1")) == cur && "0" + ("." + "2") == latest;
  }

  lemma LeadingInFront(digits: string, rest: string)
    requires AllDigits(digits) && (rest == "" || !IsDigit(rest[0]))
    ensures Behind(IsDigit, digits + rest) == rest && Run(IsDigit, digits + rest) == digits
    ensures LeadingNumber(digits + rest) == Value(digits)
  {
    RunUnique(IsDigit, digits + rest, |digits|);
    assert (digits + rest)[..|digits|] == digits;
  }

  /** Reads a version made of one-digit numbers, optional letters behind the major. */
  lemma ReadVersion(major: string, word: string, minor: string)
    requires |major| == 1 && AllDigits(major) && |minor| == 1 && AllDigits(minor)
    requires forall i :: 0 <= i < |word| ==> IsLetter(word[i])
    ensures var v := major + word + "." + minor;
      CoreVersion(v) == v && FirstTwoNumeric(v) == NumericCore(Value(major), Value(minor), true, true, true)
  {
    hide CutAt, Split, Run, Behind, Value, LeadingInt, LeadingNumber, CoreVersion;
    var v := major + word + "." + minor;
    PlainCore(v);
    SplitTwo(major + word, minor);
    LeadingInFront(major, word);
    LeadingInFront(minor, "");
    assert minor + "" == minor;
    OneDigit(major);
    OneDigit(minor);
  }

  lemma SplitTwo(head: string, tail: string)
    requires '.' !in head && '.' !in tail
    ensures Split(head + "." + tail, '.') == [head, tail]
  {
    hide CutAt;
    CutUnique(head, tail, '.');
    CutUnique(tail, "", '.');
    assert head + "." + tail == head + ['.'] + tail;
  }

  /** A version without tag, prerelease and build metadata is its own core. */
  lemma PlainCore(v: string)
    requires v != "" && IsDigit(v[0]) && '+' !in v && '-' !in v
    ensures CoreVersion(v) == v
  {
    hide CutAt;
    RunUnique(NotDigit, v, 0);
    assert Behind(NotDigit, v) == v;
    CutUnique(v, "", '+');
    CutUnique(v, "", '-');
  }

  lemma OneDigit(d: string)
    requires |d| == 1 && AllDigits(d)
    ensures forall w :: Run(IsDigit, w) == d ==> LeadingInt(w) == Parsed(Value(d), true)
  {
    TrimZerosValue(d);
    assert Value(d) < Pow10(1) == 10;
  }
}
