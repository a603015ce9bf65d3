/**
 * CompareSemver against section 11 of the Semantic Versioning 2.0.0 specification: exactly when
 * the two put two releases in the same order.
 */
module Semver11 {
  import opened Orders
  import opened Decimals
  import opened Versions
  import opened IdentAgreement

  datatype Ident = NumericId(n: nat) | WordId(word: string)

  /** A core of dotted numbers and its prerelease identifiers (none for a release). */
  datatype Release = Release(core: seq<nat>, pre: seq<Ident>)

  predicate WellFormed(r: Release) {
    && r.core != []
    && forall i :: 0 <= i < |r.pre| ==> (r.pre[i].WordId? ==> IsAlphanumeric(r.pre[i].word))
  }

  // ---------------------------------------------------------------- the specification's precedence

  function IdentPrecedence(a: Ident, b: Ident): (c: int) {
    match (a, b)
    case (NumericId(m), NumericId(n)) => Sign(m - n)
    case (NumericId(_), WordId(_)) => -1
    case (WordId(_), NumericId(_)) => 1
    case (WordId(v), WordId(w)) => CompareStrings(v, w)
  }

  function Precedence(a: Release, b: Release): (c: int) {
    var c := Lex(CompareNat, a.core, b.core);
    if c != 0 then c
    else if a.pre == [] && b.pre == [] then 0
    else if a.pre == [] then 1
    else if b.pre == [] then -1
    else Lex(IdentPrecedence, a.pre, b.pre)
  }

  // ---------------------------------------------------------------- how a release is written

  function Dotted(core: seq<nat>): (s: string)
    requires core != []
  {
    if |core| == 1 then Decimal(core[0]) else Decimal(core[0]) + "." + Dotted(core[1..])
  }

  function IdentText(i: Ident): (s: string) {
    match i
    case NumericId(n) => Decimal(n)
    case WordId(w) => w
  }

  function PreText(pre: seq<Ident>): (s: string)
    requires pre != []
  {
    if |pre| == 1 then IdentText(pre[0]) else IdentText(pre[0]) + "." + PreText(pre[1..])
  }

  function Body(r: Release): (s: string)
    requires r.core != []
  {
    if r.pre == [] then Dotted(r.core) else Dotted(r.core) + "-" + PreText(r.pre)
  }

  /** The written version: an optional tag prefix, the release, optional build metadata. */
  function Written(tag: string, r: Release, build: string): (s: string)
    requires r.core != []
  {
    tag + Body(r) + (if build == "" then "" else "+" + build)
  }

  // ---------------------------------------------------------------- scanning what was written

  /** CutAt's contract determines the cut. */
  lemma CutUnique(s: string, t: string, sep: char)
    requires sep !in s
    ensures CutAt(s + [sep] + t, sep) == Cut(s, t, true)
    ensures CutAt(s, sep) == Cut(s, "", false)
  {
    hide CutAt;
    var u := s + [sep] + t;
    assert u[|s|] == sep;
    var r := CutAt(u, sep);
    assert u[|r.before|] == sep;
    assert forall i :: 0 <= i < |s| ==> u[i] == s[i] != sep;
    assert forall i :: 0 <= i < |r.before| ==> u[i] == r.before[i] != sep;
    assert |r.before| == |s|;
    assert r.before == u[..|s|] == s && r.after == u[|s| + 1..] == t;
  }

  lemma {:induction false} DottedShape(core: seq<nat>)
    requires core != []
    ensures Dotted(core) != "" && IsDigit(Dotted(core)[0])
    ensures forall i :: 0 <= i < |Dotted(core)| ==> IsDigit(Dotted(core)[i]) || Dotted(core)[i] == '.'
  {
    if |core| > 1 {
      DottedShape(core[1..]);
    }
  }

  lemma {:induction false} PreTextShape(pre: seq<Ident>)
    requires pre != [] && WellFormed(Release([0], pre))
    ensures forall i :: 0 <= i < |PreText(pre)| ==> IsWordChar(PreText(pre)[i]) || PreText(pre)[i] == '.'
  {
    if |pre| > 1 {
      PreTextShape(pre[1..]);
    }
  }

  lemma StripTag(tag: string, s: string)
    requires forall i :: 0 <= i < |tag| ==> !IsDigit(tag[i])
    requires s != "" && IsDigit(s[0])
    ensures Behind(NotDigit, tag + s) == s
  {
    RunUnique(NotDigit, tag + s, |tag|);
  }

  lemma BodyShape(r: Release)
    requires WellFormed(r)
    ensures Body(r) != "" && IsDigit(Body(r)[0]) && '+' !in Body(r)
    ensures CutAt(Body(r), '-') == Cut(Dotted(r.core), if r.pre == [] then "" else PreText(r.pre), r.pre != [])
  {
    hide CutAt, PreText, Dotted;
    var core := Dotted(r.core);
    DottedShape(r.core);
    if r.pre == [] {
      CutUnique(core, "", '-');
    } else {
      PreTextShape(r.pre);
      CutUnique(core, PreText(r.pre), '-');
    }
  }

  lemma SplitTagged(tag: string, body: string, build: string)
    requires forall i :: 0 <= i < |tag| ==> !IsDigit(tag[i])
    requires body != "" && IsDigit(body[0])
    ensures Behind(NotDigit, tag + body + (if build == "" then "" else "+" + build))
         == if build == "" then body else body + ['+'] + build
  {
    var s := if build == "" then body else body + ['+'] + build;
    StripTag(tag, s);
    assert tag + body + (if build == "" then "" else "+" + build) == tag + s;
  }

  lemma SplitWritten(tag: string, r: Release, build: string)
    requires WellFormed(r) && (forall i :: 0 <= i < |tag| ==> !IsDigit(tag[i]))
    ensures SplitCoreAndPre(Written(tag, r, build))
         == Cut(Dotted(r.core), if r.pre == [] then "" else PreText(r.pre), r.pre != [])
  {
    BodyShape(r);
    CutUnique(Body(r), build, '+');
    SplitTagged(tag, Body(r), build);
  }

  // ---------------------------------------------------------------- cores

  function DottedKey(core: seq<nat>): (k: seq<Token>)
    requires core != []
  {
    if |core| == 1 then [Number(core[0])] else [Number(core[0]), Separator('.')] + DottedKey(core[1..])
  }

  lemma KeyOfNumber(n: nat, rest: string)
    requires rest == "" || !IsDigit(rest[0])
    ensures Key(Decimal(n) + rest) == [Number(n)] + WordKey(rest)
  {
    var d := Decimal(n);
    var s := d + rest;
    RunUnique(IsDigit, s, |d|);
    assert s[..|d|] == d && s[|d|..] == rest;
    ValueOfDecimal(n);
  }

  lemma KeyOfBareNumber(n: nat)
    ensures Key(Decimal(n)) == [Number(n)]
  {
    KeyOfNumber(n, "");
    assert Decimal(n) + "" == Decimal(n);
  }

  lemma SeparatorKey(rest: string)
    ensures WordKey("." + rest) == [Separator('.')] + Key(rest)
  {
    assert ("." + rest)[1..] == rest;
  }

  lemma {:induction false} KeyOfDotted(core: seq<nat>)
    requires core != []
    ensures Key(Dotted(core)) == DottedKey(core)
  {
    hide Key, WordKey, Decimal;
    if |core| == 1 {
      KeyOfBareNumber(core[0]);
    } else {
      var rest := Dotted(core[1..]);
      KeyOfDotted(core[1..]);
      SeparatorKey(rest);
      KeyOfNumber(core[0], "." + rest);
      assert Dotted(core) == Decimal(core[0]) + ("." + rest);
      var k := DottedKey(core[1..]);
      assert [Number(core[0])] + ([Separator('.')] + k) == [Number(core[0]), Separator('.')] + k;
    }
  }

  lemma {:induction false} DottedKeyOrder(a: seq<nat>, b: seq<nat>)
    requires a != [] && b != []
    ensures Lex(CompareToken, DottedKey(a), DottedKey(b)) == Lex(CompareNat, a, b)
  {
    var ta := if |a| == 1 then [] else [Separator('.')] + DottedKey(a[1..]);
    var tb := if |b| == 1 then [] else [Separator('.')] + DottedKey(b[1..]);
    assert DottedKey(a) == [Number(a[0])] + ta && DottedKey(b) == [Number(b[0])] + tb;
    LexCons(CompareToken, Number(a[0]), ta, Number(b[0]), tb);
    if |a| > 1 && |b| > 1 {
      LexCons(CompareToken, Separator('.'), DottedKey(a[1..]), Separator('.'), DottedKey(b[1..]));
      DottedKeyOrder(a[1..], b[1..]);
    }
  }

  // ---------------------------------------------------------------- prerelease identifiers

  lemma NumericText(n: nat)
    ensures IsNumeric(Decimal(n)) && Value(Decimal(n)) == n
  {
    ValueOfDecimal(n);
  }

  predicate Admissible(i: Ident) {
    i.WordId? ==> IsAlphanumeric(i.word)
  }

  /** The orders of two identifiers agree, unless both are alphanumeric and their first difference says otherwise. */
  predicate IdentsAgree(a: Ident, b: Ident) {
    a.WordId? && b.WordId? ==> Agree(a.word, b.word)
  }

  lemma IdentTextOrder(a: Ident, b: Ident)
    requires Admissible(a) && Admissible(b)
    ensures IdentOrder(IdentText(a), IdentText(b)) == IdentPrecedence(a, b) <==> IdentsAgree(a, b)
    ensures a == b ==> IdentOrder(IdentText(a), IdentText(b)) == 0
    ensures IdentPrecedence(a, b) == 0 <==> a == b
  {
    hide CompareBigInt, ChunkOrder, Decimal, Agree, CompareStrings;
    StringOrder();
    ChunkOrderIsTotalPreorder();
    assert a.WordId? ==> CompareStrings(a.word, a.word) == 0 && ChunkOrder(a.word, a.word) == 0;
    if a.NumericId? { NumericText(a.n); }
    if b.NumericId? { NumericText(b.n); }
    if a.NumericId? && b.NumericId? {
      CompareBigIntIsNumeric(Decimal(a.n), Decimal(b.n));
    } else if a.WordId? && b.WordId? {
      OrdersAgreeIff(a.word, b.word);
    }
  }

  function Texts(pre: seq<Ident>): (ts: seq<string>) {
    if pre == [] then [] else [IdentText(pre[0])] + Texts(pre[1..])
  }

  /**
   * At the first position where the identifiers differ they agree, or they tie chunk-wise and the
   * identifiers behind them happen to decide as they should have.
   */
  predicate PreAgree(a: seq<Ident>, b: seq<Ident>)
    decreases |a|
  {
    if a == [] || b == [] then true
    else if a[0] == b[0] then PreAgree(a[1..], b[1..])
    else
      || IdentsAgree(a[0], b[0])
      || (IdentOrder(IdentText(a[0]), IdentText(b[0])) == 0
          && Lex(IdentOrder, Texts(a[1..]), Texts(b[1..])) == IdentPrecedence(a[0], b[0]))
  }

  lemma {:induction false} PreOrdersAgreeIff(a: seq<Ident>, b: seq<Ident>)
    requires forall i :: 0 <= i < |a| ==> Admissible(a[i])
    requires forall i :: 0 <= i < |b| ==> Admissible(b[i])
    ensures Lex(IdentOrder, Texts(a), Texts(b)) == Lex(IdentPrecedence, a, b) <==> PreAgree(a, b)
    decreases |a|
  {
    hide IdentOrder, IdentPrecedence, IdentText, Admissible, IdentsAgree;
    if a != [] && b != [] {
      LexCons(IdentOrder, IdentText(a[0]), Texts(a[1..]), IdentText(b[0]), Texts(b[1..]));
      LexCons(IdentPrecedence, a[0], a[1..], b[0], b[1..]);
      assert a == [a[0]] + a[1..] && b == [b[0]] + b[1..];
      IdentTextOrder(a[0], b[0]);
      PreOrdersAgreeIff(a[1..], b[1..]);
    }
  }

  lemma {:induction false} SplitIsTexts(pre: seq<Ident>)
    requires pre != [] && WellFormed(Release([0], pre))
    ensures Split(PreText(pre), '.') == Texts(pre)
  {
    hide Split, PreText, IdentText, IsAlphanumeric;
    SplitPreText(pre);
    if |pre| > 1 {
      SplitIsTexts(pre[1..]);
    } else {
      assert pre[1..] == [];
    }
  }

  lemma SplitPreText(pre: seq<Ident>)
    requires pre != [] && WellFormed(Release([0], pre))
    ensures Split(PreText(pre), '.')
         == [IdentText(pre[0])] + (if |pre| == 1 then [] else Split(PreText(pre[1..]), '.'))
  {
    CutUnique(IdentText(pre[0]), if |pre| == 1 then "" else PreText(pre[1..]), '.');
    if |pre| > 1 {
      assert PreText(pre) == IdentText(pre[0]) + ['.'] + PreText(pre[1..]);
    }
  }

  // ---------------------------------------------------------------- main results

  /**
   * CompareSemver puts two releases in the specification's order, whatever their tag prefixes and
   * build metadata, exactly when the cores decide, one is not a prerelease, or the prereleases agree.
   */
  lemma SemverOrderIsPrecedence(tag: string, a: Release, build: string, tag': string, b: Release, build': string)
    requires WellFormed(a) && WellFormed(b)
    requires forall i :: 0 <= i < |tag| ==> !IsDigit(tag[i])
    requires forall i :: 0 <= i < |tag'| ==> !IsDigit(tag'[i])
    ensures SemverOrder(Written(tag, a, build), Written(tag', b, build')) == Precedence(a, b) <==>
      Lex(CompareNat, a.core, b.core) != 0 || a.pre == [] || b.pre == [] || PreAgree(a.pre, b.pre)
  {
    hide Key, DottedKey, Written, SplitCoreAndPre, Split, PreText, IdentOrder, IdentPrecedence, PreAgree, IsAlphanumeric, Texts;
    SplitWritten(tag, a, build);
    SplitWritten(tag', b, build');
    KeyOfDotted(a.core);
    KeyOfDotted(b.core);
    DottedKeyOrder(a.core, b.core);
    if a.pre != [] && b.pre != [] {
      SplitIsTexts(a.pre);
      SplitIsTexts(b.pre);
      PreOrdersAgreeIff(a.pre, b.pre);
    }
  }

  /** Digit runs inside an identifier compare as integers... */
  lemma NumberedWordOrder(word: string, m: nat, n: nat)
    requires word != "" && forall i :: 0 <= i < |word| ==> IsLetter(word[i])
    ensures ChunkOrder(word + Decimal(m), word + Decimal(n)) == Sign(m - n)
  {
    hide Key, WordKey, Decimal;
    LettersInFront(word, Decimal(m));
    LettersInFront(word, Decimal(n));
    CharOrder();
    LexReflexive(CompareChar, word);
    DropLetters(word + Decimal(m), word + Decimal(n));
    KeyOfBareNumber(m);
    KeyOfBareNumber(n);
    LexCons(CompareToken, Number(m), [], Number(n), []);
    assert [Number(m)] + [] == [Number(m)] && [Number(n)] + [] == [Number(n)];
  }

  lemma LettersInFront(word: string, s: string)
    requires forall i :: 0 <= i < |word| ==> IsLetter(word[i])
    requires s == "" || !IsLetter(s[0])
    ensures Run(IsLetter, word + s) == word && Behind(IsLetter, word + s) == s
  {
    RunUnique(IsLetter, word + s, |word|);
    assert (word + s)[..|word|] == word;
  }

  /** ...so "r10" sorts above "r9", where the specification's ASCII order puts it below. */
  lemma DepartsOnMixedIdentifiers()
    ensures IdentOrder("r" + Decimal(10), "r" + Decimal(9)) == 1
    ensures CompareStrings("r" + Decimal(10), "r" + Decimal(9)) == -1
  {
    NumberedWordOrder("r", 10, 9);
    var x, y := Decimal(10), Decimal(9);
    assert x == "10" && y == "9" by { assert Decimal(1) == "1"; }
    assert !IsDigit(("r" + x)[0]) && !IsDigit(("r" + y)[0]);
    LexCons(CompareChar, 'r', x, 'r', y);
  }
}
