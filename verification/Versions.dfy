/**
 * The version comparison of check-deps: CompareChunks and CompareSemver, specified by a
 * token key whose lexicographic order they compute.
 */
module Versions {
  import opened Orders
  import opened Decimals

  // ---------------------------------------------------------------- prefix scanners

  predicate IsLetter(c: char) {
    'a' <= c <= 'z' || 'A' <= c <= 'Z'
  }

  predicate NotDigit(c: char) {
    !IsDigit(c)
  }

  /** The longest prefix of s all of whose characters satisfy p. */
  function Run(p: char -> bool, s: string): (r: string)
    ensures |r| <= |s| && r == s[..|r|]
    ensures forall i :: 0 <= i < |r| ==> p(r[i])
    ensures |r| < |s| ==> !p(s[|r|])
  {
    if s == "" || !p(s[0]) then "" else [s[0]] + Run(p, s[1..])
  }

  /** What is left of s behind its longest p-prefix. */
  function Behind(p: char -> bool, s: string): (r: string)
    ensures Run(p, s) + r == s
    ensures r == "" || !p(r[0])
  {
    s[|Run(p, s)|..]
  }

  lemma {:induction false} RunUnique(p: char -> bool, s: string, k: nat)
    requires k <= |s| && (forall i :: 0 <= i < k ==> p(s[i])) && (k < |s| ==> !p(s[k]))
    ensures Run(p, s) == s[..k]
  {
    if k > 0 {
      RunUnique(p, s[1..], k - 1);
    }
  }

  method LeadingDigits(s: string) returns (r: string)
    ensures r == Run(IsDigit, s)
  {
    var i := 0;
    while i < |s| && IsDigit(s[i])
      invariant i <= |s| && forall j :: 0 <= j < i ==> IsDigit(s[j])
    {
      i := i + 1;
    }
    RunUnique(IsDigit, s, i);
    r := s[..i];
  }

  method LeadingLetters(s: string) returns (r: string)
    ensures r == Run(IsLetter, s)
  {
    var i := 0;
    while i < |s| && IsLetter(s[i])
      invariant i <= |s| && forall j :: 0 <= j < i ==> IsLetter(s[j])
    {
      i := i + 1;
    }
    RunUnique(IsLetter, s, i);
    r := s[..i];
  }

  /** Drops the leading tag prefix such as "v" or "n". */
  method StripTagPrefix(s: string) returns (r: string)
    ensures r == Behind(NotDigit, s)
  {
    var i := 0;
    while i < |s| && !IsDigit(s[i])
      invariant i <= |s| && forall j :: 0 <= j < i ==> NotDigit(s[j])
    {
      i := i + 1;
    }
    RunUnique(NotDigit, s, i);
    r := s[i..];
  }

  method IsAllDigits(s: string) returns (b: bool)
    ensures b <==> s != "" && AllDigits(s)
  {
    var i := 0;
    while i < |s|
      invariant i <= |s| && forall j :: 0 <= j < i ==> IsDigit(s[j])
    {
      if s[i] < '0' || s[i] > '9' {
        return false;
      }
      i := i + 1;
    }
    return |s| > 0;
  }

  // ---------------------------------------------------------------- the token key

  datatype Token = Number(value: nat) | Separator(byte: char) | Letters(run: string)

  /** Numbers sort by value, separators by byte, letter runs lexically and above separators. */
  function CompareToken(a: Token, b: Token): (c: int) {
    match (a, b)
    case (Number(m), Number(n)) => Sign(m - n)
    case (Number(_), _) => -1
    case (_, Number(_)) => 1
    case (Separator(x), Separator(y)) => CompareChar(x, y)
    case (Separator(_), Letters(_)) => -1
    case (Letters(_), Separator(_)) => 1
    case (Letters(r), Letters(s)) => CompareStrings(r, s)
  }

  /** The number a string starts with, 0 when it starts with no digit. */
  function LeadingNumber(s: string): (n: nat) {
    Value(Run(IsDigit, s))
  }

  /** The key of a string: a number (0 when there are no digits) alternating with a letter run or separator. */
  function Key(s: string): (k: seq<Token>)
    decreases |s|, 1
  {
    if s == "" then []
    else [Number(LeadingNumber(s))] + WordKey(Behind(IsDigit, s))
  }

  function WordKey(s: string): (k: seq<Token>)
    requires s == "" || !IsDigit(s[0])
    decreases |s|, 0
  {
    if s == "" then []
    else if IsLetter(s[0]) then [Letters(Run(IsLetter, s))] + Key(Behind(IsLetter, s))
    else [Separator(s[0])] + Key(s[1..])
  }

  function ChunkOrder(a: string, b: string): (c: int) {
    Lex(CompareToken, Key(a), Key(b))
  }

  lemma TokenLaws(a: Token, b: Token, c: Token)
    ensures -1 <= CompareToken(a, b) <= 1 && CompareToken(a, b) == -CompareToken(b, a)
    ensures CompareToken(a, b) == 0 ==> a == b
    ensures CompareToken(a, b) <= 0 && CompareToken(b, c) <= 0 ==> CompareToken(a, c) <= 0
  {
    if a.Letters? && b.Letters? {
      CharOrder();
      LexAntisymmetric(CompareChar, a.run, b.run);
      if CompareStrings(a.run, b.run) == 0 {
        LexExact(CompareChar, a.run, b.run);
      }
      if c.Letters? && CompareStrings(a.run, b.run) <= 0 && CompareStrings(b.run, c.run) <= 0 {
        LexTransitive(CompareChar, a.run, b.run, c.run);
      }
    }
  }

  lemma TokenOrder()
    ensures IsTotalPreorder(CompareToken) && IsExact(CompareToken)
  {
    forall a, b, c
      ensures -1 <= CompareToken(a, b) <= 1 && CompareToken(a, b) == -CompareToken(b, a)
      ensures CompareToken(a, b) == 0 ==> a == b
      ensures CompareToken(a, b) <= 0 && CompareToken(b, c) <= 0 ==> CompareToken(a, c) <= 0
    {
      TokenLaws(a, b, c);
    }
  }

  /** The key order is a total preorder, and equates exactly the strings with equal keys. */
  lemma ChunkOrderIsTotalPreorder()
    ensures IsTotalPreorder(ChunkOrder)
    ensures forall a, b :: ChunkOrder(a, b) == 0 <==> Key(a) == Key(b)
  {
    TokenOrder();
    forall a, b
      ensures -1 <= ChunkOrder(a, b) <= 1 && ChunkOrder(a, b) == -ChunkOrder(b, a)
      ensures ChunkOrder(a, b) == 0 <==> Key(a) == Key(b)
    {
      LexAntisymmetric(CompareToken, Key(a), Key(b));
      LexReflexive(CompareToken, Key(a));
      if ChunkOrder(a, b) == 0 {
        LexExact(CompareToken, Key(a), Key(b));
      }
    }
    forall a, b, c | ChunkOrder(a, b) <= 0 && ChunkOrder(b, c) <= 0
      ensures ChunkOrder(a, c) <= 0
    {
      LexTransitive(CompareToken, Key(a), Key(b), Key(c));
    }
  }

  // ---------------------------------------------------------------- CompareChunks

  lemma NumberlessKey(s: string)
    requires s == "" || !IsDigit(s[0])
    ensures Behind(IsDigit, s) == s
    ensures Key(s) == if s == "" then [] else [Number(0)] + WordKey(s)
  {
    RunUnique(IsDigit, s, 0);
  }

  lemma NumberlessOrder(a: string, b: string)
    requires a == "" || !IsDigit(a[0])
    requires b == "" || !IsDigit(b[0])
    ensures ChunkOrder(a, b) == Lex(CompareToken, WordKey(a), WordKey(b))
  {
    NumberlessKey(a);
    NumberlessKey(b);
    LexCons(CompareToken, Number(0), WordKey(a), Number(0), WordKey(b));
  }

  /** Equal numbers in front of both strings may be dropped. */
  lemma DropNumbers(a: string, b: string)
    requires a != "" && b != ""
    ensures ChunkOrder(a, b) ==
      if LeadingNumber(a) != LeadingNumber(b) then Sign(LeadingNumber(a) - LeadingNumber(b))
      else ChunkOrder(Behind(IsDigit, a), Behind(IsDigit, b))
  {
    DropNumberTokens(Key(a), LeadingNumber(a), Behind(IsDigit, a), Key(b), LeadingNumber(b), Behind(IsDigit, b));
  }

  lemma DropNumberTokens(k: seq<Token>, m: nat, a: string, l: seq<Token>, n: nat, b: string)
    requires a == "" || !IsDigit(a[0])
    requires b == "" || !IsDigit(b[0])
    requires k == [Number(m)] + WordKey(a) && l == [Number(n)] + WordKey(b)
    ensures Lex(CompareToken, k, l) == if m != n then Sign(m - n) else ChunkOrder(a, b)
  {
    LexCons(CompareToken, Number(m), WordKey(a), Number(n), WordKey(b));
    NumberlessOrder(a, b);
  }

  /** Behind equal numbers, letter runs decide; a letter run beats a separator. */
  lemma DropLetters(a: string, b: string)
    requires a != "" && b != "" && !IsDigit(a[0]) && !IsDigit(b[0])
    requires IsLetter(a[0]) || IsLetter(b[0])
    ensures var c := CompareStrings(Run(IsLetter, a), Run(IsLetter, b));
      ChunkOrder(a, b) == if c != 0 then c else ChunkOrder(Behind(IsLetter, a), Behind(IsLetter, b))
  {
    NumberlessOrder(a, b);
    var r, s := Run(IsLetter, a), Run(IsLetter, b);
    if IsLetter(a[0]) && IsLetter(b[0]) {
      LexCons(CompareToken, Letters(r), Key(Behind(IsLetter, a)), Letters(s), Key(Behind(IsLetter, b)));
    } else if IsLetter(a[0]) {
      LexCons(CompareToken, Letters(r), Key(Behind(IsLetter, a)), Separator(b[0]), Key(b[1..]));
    } else {
      LexCons(CompareToken, Separator(a[0]), Key(a[1..]), Letters(s), Key(Behind(IsLetter, b)));
    }
  }

  lemma DropSeparators(a: string, b: string)
    requires a != "" && b != "" && !IsDigit(a[0]) && !IsDigit(b[0])
    requires !IsLetter(a[0]) && !IsLetter(b[0])
    ensures ChunkOrder(a, b) == if a[0] != b[0] then CompareChar(a[0], b[0]) else ChunkOrder(a[1..], b[1..])
  {
    NumberlessOrder(a, b);
    LexCons(CompareToken, Separator(a[0]), Key(a[1..]), Separator(b[0]), Key(b[1..]));
  }

  /** The end of a string sorts below everything. */
  lemma EndIsLowest(a: string, b: string)
    requires a == "" || b == ""
    ensures ChunkOrder(a, b) == if a == "" && b == "" then 0 else if a == "" then -1 else 1
  {
  }

  /** Walks both strings run by run; computes the key order on all strings. */
  method CompareChunks(a: string, b: string) returns (c: int)
    ensures c == ChunkOrder(a, b)
  {
    hide ChunkOrder;
    var x, y := a, b;
    while true
      invariant ChunkOrder(a, b) == ChunkOrder(x, y)
      decreases |x| + |y|
    {
      if x == "" || y == "" { EndIsLowest(x, y); }
      if x == "" && y == "" { return 0; }
      if x == "" { return -1; }
      if y == "" { return 1; }
      var xNum := LeadingDigits(x);
      var yNum := LeadingDigits(y);
      if xNum != "" || yNum != "" {
        DropNumbers(x, y);
        CompareBigIntIsNumeric(xNum, yNum);
        c := CompareBigInt(xNum, yNum);
        if c != 0 { return; }
        x, y := x[|xNum|..], y[|yNum|..];
        continue;
      }
      var xAlpha := LeadingLetters(x);
      var yAlpha := LeadingLetters(y);
      if xAlpha != "" || yAlpha != "" {
        DropLetters(x, y);
        c := CompareStrings(xAlpha, yAlpha);
        if c != 0 { return; }
        x, y := x[|xAlpha|..], y[|yAlpha|..];
        continue;
      }
      DropSeparators(x, y);
      if x[0] != y[0] {
        if x[0] < y[0] { return -1; }
        return 1;
      }
      x, y := x[1..], y[1..];
    }
  }

  // ---------------------------------------------------------------- CompareSemver

  datatype Cut = Cut(before: string, after: string, found: bool)

  /** Go's strings.Cut for a one-character separator. */
  function CutAt(s: string, sep: char): (r: Cut)
    ensures r.found <==> sep in s
    ensures sep !in r.before
    ensures s == if r.found then r.before + [sep] + r.after else r.before
    ensures !r.found ==> r.after == ""
  {
    if s == "" then Cut("", "", false)
    else if s[0] == sep then Cut("", s[1..], true)
    else
      var t := CutAt(s[1..], sep);
      Cut([s[0]] + t.before, t.after, t.found)
  }

  /** Go's strings.Split for a one-character separator: never empty. */
  function Split(s: string, sep: char): (parts: seq<string>)
    ensures parts != []
    decreases |s|
  {
    var r := CutAt(s, sep);
    if !r.found then [r.before] else [r.before] + Split(r.after, sep)
  }

  /** Strips the tag prefix, drops build metadata, and cuts the prerelease off the core. */
  function SplitCoreAndPre(s: string): (r: Cut) {
    CutAt(CutAt(Behind(NotDigit, s), '+').before, '-')
  }

  function CoreVersion(s: string): (core: string) {
    SplitCoreAndPre(s).before
  }

  predicate IsNumeric(s: string) {
    s != "" && AllDigits(s)
  }

  /** Numeric identifiers compare as integers and sort below alphanumeric ones. */
  function IdentOrder(a: string, b: string): (c: int) {
    if IsNumeric(a) && IsNumeric(b) then CompareBigInt(a, b)
    else if IsNumeric(a) then -1
    else if IsNumeric(b) then 1
    else ChunkOrder(a, b)
  }

  function PrereleaseOrder(a: string, b: string): (c: int) {
    Lex(IdentOrder, Split(a, '.'), Split(b, '.'))
  }

  function SemverOrder(a: string, b: string): (c: int) {
    var x, y := SplitCoreAndPre(a), SplitCoreAndPre(b);
    var c := ChunkOrder(x.before, y.before);
    if c != 0 then c
    else if !x.found && y.found then 1
    else if x.found && !y.found then -1
    else if x.found && y.found then PrereleaseOrder(x.after, y.after)
    else 0
  }

  method ComparePrereleaseIdent(a: string, b: string) returns (c: int)
    ensures c == IdentOrder(a, b)
  {
    var aNum := IsAllDigits(a);
    var bNum := IsAllDigits(b);
    if aNum && bNum {
      c := CompareBigInt(a, b);
    } else if aNum {
      c := -1;
    } else if bNum {
      c := 1;
    } else {
      c := CompareChunks(a, b);
    }
  }

  method ComparePrerelease(a: string, b: string) returns (c: int)
    ensures c == PrereleaseOrder(a, b)
  {
    var xs, ys := Split(a, '.'), Split(b, '.');
    var short := if |ys| < |xs| then |ys| else |xs|;
    var i := 0;
    while i < short
      invariant i <= short
      invariant PrereleaseOrder(a, b) == Lex(IdentOrder, xs[i..], ys[i..])
    {
      c := ComparePrereleaseIdent(xs[i], ys[i]);
      if c != 0 { return; }
      assert xs[i..][1..] == xs[i + 1..] && ys[i..][1..] == ys[i + 1..];
      i := i + 1;
    }
    c := if |xs| < |ys| then -1 else if |xs| > |ys| then 1 else 0;
  }

  method CompareSemver(a: string, b: string) returns (c: int)
    ensures c == SemverOrder(a, b)
  {
    var x, y := SplitCoreAndPre(a), SplitCoreAndPre(b);
    c := CompareChunks(x.before, y.before);
    if c != 0 { return; }
    if !x.found && y.found { return 1; }
    if x.found && !y.found { return -1; }
    if x.found && y.found {
      c := ComparePrerelease(x.after, y.after);
    } else {
      c := 0;
    }
  }

  lemma IdentOrderIsTotalPreorder()
    ensures IsTotalPreorder(IdentOrder)
  {
    hide ChunkOrder, CompareBigInt, Value;
    ChunkOrderIsTotalPreorder();
    forall a, b | IsNumeric(a) && IsNumeric(b)
      ensures IdentOrder(a, b) == Sign(Value(a) - Value(b))
    {
      NumbersByValue(a, b);
    }
    forall a, b, c | IdentOrder(a, b) <= 0 && IdentOrder(b, c) <= 0
      ensures IdentOrder(a, c) <= 0
    {
    }
  }

  lemma NumbersByValue(a: string, b: string)
    requires IsNumeric(a) && IsNumeric(b)
    ensures IdentOrder(a, b) == Sign(Value(a) - Value(b))
  {
    CompareBigIntIsNumeric(a, b);
  }

  lemma PrereleaseOrderIsTotalPreorder()
    ensures IsTotalPreorder(PrereleaseOrder)
  {
    IdentOrderIsTotalPreorder();
    forall a, b
      ensures -1 <= PrereleaseOrder(a, b) <= 1 && PrereleaseOrder(a, b) == -PrereleaseOrder(b, a)
    {
      LexAntisymmetric(IdentOrder, Split(a, '.'), Split(b, '.'));
    }
    forall a, b, c | PrereleaseOrder(a, b) <= 0 && PrereleaseOrder(b, c) <= 0
      ensures PrereleaseOrder(a, c) <= 0
    {
      LexTransitive(IdentOrder, Split(a, '.'), Split(b, '.'), Split(c, '.'));
    }
  }

  /** CompareSemver orders all strings, not only well-formed versions, as a total preorder. */
  lemma SemverOrderIsTotalPreorder()
    ensures IsTotalPreorder(SemverOrder)
  {
    ChunkOrderIsTotalPreorder();
    PrereleaseOrderIsTotalPreorder();
    forall a, b, c | SemverOrder(a, b) <= 0 && SemverOrder(b, c) <= 0
      ensures SemverOrder(a, c) <= 0
    {
      SemverTransitive(a, b, c);
    }
  }

  lemma SemverTransitive(a: string, b: string, c: string)
    requires IsTotalPreorder(ChunkOrder) && IsTotalPreorder(PrereleaseOrder)
    requires SemverOrder(a, b) <= 0 && SemverOrder(b, c) <= 0
    ensures SemverOrder(a, c) <= 0
  {
    hide ChunkOrder, PrereleaseOrder, SplitCoreAndPre;
    var x, y, z := CoreVersion(a), CoreVersion(b), CoreVersion(c);
    assert ChunkOrder(x, y) <= 0 && ChunkOrder(y, z) <= 0;
    assert ChunkOrder(x, z) <= 0;
    if ChunkOrder(x, z) == 0 {
      assert ChunkOrder(z, x) <= 0;
      assert ChunkOrder(z, y) <= 0 && ChunkOrder(y, x) <= 0;
    }
  }
}
