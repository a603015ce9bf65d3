/**
 * The chunk-wise order of alphanumeric prerelease identifiers against the ASCII order that
 * section 11 of the Semantic Versioning 2.0.0 specification asks for: exactly when they agree.
 */
module IdentAgreement {
  import opened Orders
  import opened Decimals
  import opened Versions

  predicate IsWordChar(c: char) {
    IsDigit(c) || IsLetter(c) || c == '-'
  }

  predicate IsWord(s: string) {
    forall i :: 0 <= i < |s| ==> IsWordChar(s[i])
  }

  /** An identifier that is not a number. */
  predicate IsAlphanumeric(s: string) {
    s != "" && IsWord(s) && !AllDigits(s)
  }

  // ---------------------------------------------------------------- the first difference

  /** How many characters two strings have in common before they first differ. */
  function Common(a: string, b: string): (k: nat)
    ensures k <= |a| && k <= |b| && a[..k] == b[..k]
    ensures k < |a| && k < |b| ==> a[k] != b[k]
  {
    if a == "" || b == "" || a[0] != b[0] then 0
    else
      var k := Common(a[1..], b[1..]);
      assert a[..k + 1] == [a[0]] + a[1..][..k] && b[..k + 1] == [b[0]] + b[1..][..k];
      k + 1
  }

  /** The digits at the end of a string. */
  function DigitTail(p: string): (d: string)
    ensures |d| <= |p| && p == p[..|p| - |d|] + d && AllDigits(d)
    ensures |d| < |p| ==> !IsDigit(p[|p| - |d| - 1])
  {
    if p == "" || !IsDigit(p[|p| - 1]) then "" else DigitTail(p[..|p| - 1]) + [p[|p| - 1]]
  }

  predicate StartsWithLetter(s: string) { s != "" && IsLetter(s[0]) }

  /** How two strings without a common start compare: by their first characters, the empty one first. */
  function FirstSign(x: string, y: string): (c: int) {
    if x == "" && y == "" then 0 else if x == "" then -1 else if y == "" then 1 else CompareChar(x[0], y[0])
  }

  function NumberOf(digits: string, x: string): (n: nat)
    requires AllDigits(digits)
  {
    Value(digits + Run(IsDigit, x))
  }

  /**
   * Read at the first difference, with `digits` the digits directly before it: the orders agree
   * when a letter run goes on there, when a string ends outside a number, and when no number is
   * involved; otherwise the two numbers must compare as the differing characters do, and if they
   * have the same value the remainders behind them must.
   */
  predicate Agree(a: string, b: string) {
    var k := Common(a, b);
    AgreeAt(a[..k], DigitTail(a[..k]), a[k..], b[k..])
  }

  predicate AgreeAt(p: string, digits: string, x: string, y: string)
    requires AllDigits(digits)
  {
    if p != "" && IsLetter(p[|p| - 1]) && (StartsWithLetter(x) || StartsWithLetter(y)) then true
    else if digits == "" && (x == "" || y == "") then true
    else if Run(IsDigit, x) == "" && Run(IsDigit, y) == "" then true
    else if NumberOf(digits, x) != NumberOf(digits, y) then Sign(NumberOf(digits, x) - NumberOf(digits, y)) == FirstSign(x, y)
    else ChunkOrder(Behind(IsDigit, x), Behind(IsDigit, y)) == FirstSign(x, y)
  }

  // ---------------------------------------------------------------- a common start

  /** No run of digits and no run of letters goes on across the two strings. */
  predicate Boundary(q: string, u: string) {
    q == "" || u == "" ||
    (var c, d := q[|q| - 1], u[0]; !(IsDigit(c) && IsDigit(d)) && !(IsLetter(c) && IsLetter(d)))
  }

  lemma RunOver(p: char -> bool, q: string, u: string)
    requires |Run(p, q)| == |q| ==> u == "" || !p(u[0])
    ensures Run(p, q + u) == Run(p, q) && Behind(p, q + u) == Behind(p, q) + u
  {
    hide Run;
    var k := |Run(p, q)|;
    var s := q + u;
    assert forall i :: 0 <= i < k ==> s[i] == Run(p, q)[i];
    RunUnique(p, s, k);
    assert s[..k] == Run(p, q) && s[k..] == q[k..] + u;
  }

  lemma BoundaryBehind(q: string, k: nat, u: string)
    requires k <= |q| && Boundary(q, u)
    ensures Boundary(q[k..], u)
  {
  }

  /** What two strings have in common up to the end of a run does not matter. */
  lemma {:induction false} CommonStartDrops(q: string, u: string, v: string)
    requires Boundary(q, u) && Boundary(q, v)
    ensures ChunkOrder(q + u, q + v) == ChunkOrder(u, v)
    decreases |q|
  {
    hide ChunkOrder, Run, Value;
    if q == "" {
      assert q + u == u && q + v == v;
    } else if IsDigit(q[0]) {
      var k := |Run(IsDigit, q)|;
      RunStarts(IsDigit, q);
      RunOver(IsDigit, q, u);
      RunOver(IsDigit, q, v);
      DropNumbers(q + u, q + v);
      BoundaryBehind(q, k, u);
      BoundaryBehind(q, k, v);
      CommonStartDrops(q[k..], u, v);
    } else if IsLetter(q[0]) {
      var k := |Run(IsLetter, q)|;
      RunStarts(IsLetter, q);
      RunOver(IsLetter, q, u);
      RunOver(IsLetter, q, v);
      DropLetters(q + u, q + v);
      CharOrder();
      LexReflexive(CompareChar, Run(IsLetter, q));
      BoundaryBehind(q, k, u);
      BoundaryBehind(q, k, v);
      CommonStartDrops(q[k..], u, v);
    } else {
      DropSeparators(q + u, q + v);
      assert (q + u)[1..] == q[1..] + u && (q + v)[1..] == q[1..] + v;
      BoundaryBehind(q, 1, u);
      BoundaryBehind(q, 1, v);
      CommonStartDrops(q[1..], u, v);
    }
  }

  lemma RunStarts(p: char -> bool, q: string)
    requires q != "" && p(q[0])
    ensures Run(p, q) != ""
  {
  }

  /** ASCII order: what is common does not matter, and the first characters behind it decide. */
  lemma AsciiByFirst(a: string, b: string)
    ensures var k := Common(a, b); CompareStrings(a, b) == FirstSign(a[k..], b[k..])
  {
    hide Common;
    var k := Common(a, b);
    assert a == a[..k] + a[k..] && b == a[..k] + b[k..];
    CharOrder();
    LexCommonPrefix(CompareChar, a[..k], a[k..], b[k..]);
  }

  // ---------------------------------------------------------------- the cases

  /** A letter run that goes on in one of the strings decides as its characters do. */
  lemma LettersDecide(word: string, x: string, y: string)
    requires word != "" && (forall i :: 0 <= i < |word| ==> IsLetter(word[i]))
    requires IsWord(x) && IsWord(y) && (x != "" && y != "" ==> x[0] != y[0]) && (StartsWithLetter(x) || StartsWithLetter(y))
    ensures ChunkOrder(word + x, word + y) == FirstSign(x, y)
  {
    hide ChunkOrder, Run;
    LetterRunOf(word, x);
    LetterRunOf(word, y);
    DropLetters(word + x, word + y);
    var r, s := Run(IsLetter, x), Run(IsLetter, y);
    CharOrder();
    LexCommonPrefix(CompareChar, word, r, s);
    FirstOfRun(x);
    FirstOfRun(y);
  }

  lemma LetterRunOf(word: string, x: string)
    requires forall i :: 0 <= i < |word| ==> IsLetter(word[i])
    ensures Run(IsLetter, word + x) == word + Run(IsLetter, x)
  {
    hide Run;
    var r := Run(IsLetter, x);
    var s := word + x;
    assert forall i :: |word| <= i < |word| + |r| ==> s[i] == r[i - |word|];
    RunUnique(IsLetter, s, |word| + |r|);
    assert s[..|word| + |r|] == word + r;
  }

  lemma FirstOfRun(x: string)
    ensures StartsWithLetter(x) <==> Run(IsLetter, x) != ""
    ensures Run(IsLetter, x) != "" ==> Run(IsLetter, x)[0] == x[0]
  {
  }

  /** Without a number on either side the first characters decide. */
  lemma NoNumbersDecide(x: string, y: string)
    requires IsWord(x) && IsWord(y) && (x != "" && y != "" ==> x[0] != y[0])
    requires (x == "" || !IsDigit(x[0])) && (y == "" || !IsDigit(y[0]))
    ensures ChunkOrder(x, y) == FirstSign(x, y)
  {
    hide ChunkOrder, Run;
    if x == "" || y == "" {
      EndIsLowest(x, y);
    } else {
      assert IsWordChar(x[0]) && IsWordChar(y[0]);
      DropLetters(x, y);
      FirstOfRun(x);
      FirstOfRun(y);
    }
  }

  lemma NumberRunOf(digits: string, x: string)
    requires AllDigits(digits)
    ensures Run(IsDigit, digits + x) == digits + Run(IsDigit, x) && Behind(IsDigit, digits + x) == Behind(IsDigit, x)
  {
    hide Run;
    var r := Run(IsDigit, x);
    var s := digits + x;
    assert forall i :: |digits| <= i < |digits| + |r| ==> s[i] == r[i - |digits|];
    RunUnique(IsDigit, s, |digits| + |r|);
    assert s[..|digits| + |r|] == digits + r && s[|digits| + |r|..] == x[|r|..];
  }

  /** Numbers that go on, or start, at the difference decide by value, and otherwise what is behind them. */
  lemma NumbersDecide(digits: string, x: string, y: string)
    requires AllDigits(digits) && digits + x != "" && digits + y != ""
    ensures var m, n := NumberOf(digits, x), NumberOf(digits, y);
      ChunkOrder(digits + x, digits + y) == if m != n then Sign(m - n) else ChunkOrder(Behind(IsDigit, x), Behind(IsDigit, y))
  {
    hide ChunkOrder, Run, Value;
    NumberRunOf(digits, x);
    NumberRunOf(digits, y);
    DropNumbers(digits + x, digits + y);
  }

  lemma DigitRunEmpty(x: string)
    ensures Run(IsDigit, x) == "" <==> x == "" || !IsDigit(x[0])
    ensures Run(IsDigit, x) == "" ==> Behind(IsDigit, x) == x
  {
  }

  // ---------------------------------------------------------------- the letters before the difference

  function LetterTail(p: string): (w: string)
    ensures |w| <= |p| && p == p[..|p| - |w|] + w && (forall i :: 0 <= i < |w| ==> IsLetter(w[i]))
    ensures |w| < |p| ==> !IsLetter(p[|p| - |w| - 1])
    ensures p != "" && IsLetter(p[|p| - 1]) ==> w != ""
  {
    if p == "" || !IsLetter(p[|p| - 1]) then "" else LetterTail(p[..|p| - 1]) + [p[|p| - 1]]
  }

  /** The two orders of identifiers agree exactly when the first difference says so. */
  lemma OrdersAgreeIff(a: string, b: string)
    requires IsWord(a) && IsWord(b)
    ensures ChunkOrder(a, b) == CompareStrings(a, b) <==> Agree(a, b)
  {
    hide ChunkOrder, Common, DigitTail, AgreeAt, FirstSign, CompareStrings;
    var k := Common(a, b);
    var p, x, y := a[..k], a[k..], b[k..];
    AsciiByFirst(a, b);
    assert a == p + x && b == p + y;
    AgreeAtIff(p, DigitTail(p), x, y);
  }

  /** So do the comparison of alphanumeric identifiers and the specification's. */
  lemma IdentifiersAgreeIff(a: string, b: string)
    requires IsAlphanumeric(a) && IsAlphanumeric(b)
    ensures IdentOrder(a, b) == CompareStrings(a, b) <==> Agree(a, b)
  {
    hide ChunkOrder, Agree, CompareStrings;
    OrdersAgreeIff(a, b);
  }

  lemma AgreeAtIff(p: string, digits: string, x: string, y: string)
    requires IsWord(p + x) && IsWord(p + y) && (x != "" && y != "" ==> x[0] != y[0])
    requires AllDigits(digits) && |digits| <= |p| && p == p[..|p| - |digits|] + digits
    requires |digits| < |p| ==> !IsDigit(p[|p| - |digits| - 1])
    ensures ChunkOrder(p + x, p + y) == FirstSign(x, y) <==> AgreeAt(p, digits, x, y)
  {
    hide ChunkOrder, Run, NumberOf, FirstSign;
    if p != "" && IsLetter(p[|p| - 1]) && (StartsWithLetter(x) || StartsWithLetter(y)) {
      LetterCase(p, x, y);
    } else {
      TailIsWord(p, x);
      TailIsWord(p, y);
      var q := p[..|p| - |digits|];
      assert p == q + digits && (q != "" ==> q[|q| - 1] == p[|p| - |digits| - 1]);
      assert digits == "" ==> q == p;
      NumberCase(q, digits, x, y);
    }
  }

  lemma LetterCase(p: string, x: string, y: string)
    requires IsWord(p + x) && IsWord(p + y) && (x != "" && y != "" ==> x[0] != y[0])
    requires p != "" && IsLetter(p[|p| - 1]) && (StartsWithLetter(x) || StartsWithLetter(y))
    ensures ChunkOrder(p + x, p + y) == FirstSign(x, y)
  {
    hide ChunkOrder, LetterTail;
    var w := LetterTail(p);
    var q := p[..|p| - |w|];
    assert p + x == q + (w + x) && p + y == q + (w + y);
    TailIsWord(p, x);
    TailIsWord(p, y);
    CommonStartDrops(q, w + x, w + y);
    LettersDecide(w, x, y);
  }

  lemma TailIsWord(p: string, x: string)
    requires IsWord(p + x)
    ensures IsWord(x)
  {
    assert forall i :: 0 <= i < |x| ==> x[i] == (p + x)[|p| + i];
  }

  lemma NumberCase(q: string, digits: string, x: string, y: string)
    requires IsWord(x) && IsWord(y) && (x != "" && y != "" ==> x[0] != y[0])
    requires AllDigits(digits) && (q != "" ==> !IsDigit(q[|q| - 1]))
    requires digits == "" && q != "" && IsLetter(q[|q| - 1]) ==> !StartsWithLetter(x) && !StartsWithLetter(y)
    ensures var c := ChunkOrder(q + digits + x, q + digits + y);
      if digits == "" && (x == "" || y == "") then c == FirstSign(x, y)
      else if Run(IsDigit, x) == "" && Run(IsDigit, y) == "" then c == FirstSign(x, y)
      else
        var m, n := NumberOf(digits, x), NumberOf(digits, y);
        c == if m != n then Sign(m - n) else ChunkOrder(Behind(IsDigit, x), Behind(IsDigit, y))
  {
    hide ChunkOrder, Run, NumberOf;
    FromTheNumber(q, digits, x, y);
    DigitRunEmpty(x);
    DigitRunEmpty(y);
    if digits == "" && (x == "" || y == "") {
      assert digits + x == x && digits + y == y;
      EndIsLowest(x, y);
    } else {
      NumbersDecide(digits, x, y);
      if Run(IsDigit, x) == "" && Run(IsDigit, y) == "" {
        NoNumbersDecide(x, y);
        SameNumber(digits, x, y);
      }
    }
  }

  /** The comparison is that of the strings from the digits before the difference on. */
  lemma FromTheNumber(q: string, digits: string, x: string, y: string)
    requires AllDigits(digits) && (q != "" ==> !IsDigit(q[|q| - 1]))
    requires digits == "" && q != "" && IsLetter(q[|q| - 1]) ==> !StartsWithLetter(x) && !StartsWithLetter(y)
    ensures ChunkOrder(q + digits + x, q + digits + y) == ChunkOrder(digits + x, digits + y)
  {
    hide ChunkOrder, Boundary;
    assert q + digits + x == q + (digits + x) && q + digits + y == q + (digits + y);
    NumberBoundary(q, digits, x);
    NumberBoundary(q, digits, y);
    CommonStartDrops(q, digits + x, digits + y);
  }

  lemma NumberBoundary(q: string, digits: string, x: string)
    requires AllDigits(digits) && (q != "" ==> !IsDigit(q[|q| - 1]))
    requires digits == "" && q != "" && IsLetter(q[|q| - 1]) ==> !StartsWithLetter(x)
    ensures Boundary(q, digits + x)
  {
    if digits == "" {
      assert digits + x == x;
    } else {
      assert (digits + x)[0] == digits[0];
      assert IsDigit(digits[0]);
    }
  }

  lemma SameNumber(digits: string, x: string, y: string)
    requires AllDigits(digits) && Run(IsDigit, x) == "" && Run(IsDigit, y) == ""
    ensures NumberOf(digits, x) == NumberOf(digits, y)
  {
  }

  // ---------------------------------------------------------------- families

  /** Where neither differing character is a digit, the orders agree. */
  lemma NonDigitsAgree(a: string, b: string)
    requires var k := Common(a, b); (k < |a| ==> !IsDigit(a[k])) && (k < |b| ==> !IsDigit(b[k]))
    ensures Agree(a, b)
  {
    hide Common, DigitTail, Run, NumberOf, ChunkOrder;
    var k := Common(a, b);
    DigitRunEmpty(a[k..]);
    DigitRunEmpty(b[k..]);
  }

  /** Where two digits differ in numbers of the same length, the orders agree. */
  lemma EqualLengthNumbersAgree(a: string, b: string)
    requires var k := Common(a, b);
      k < |a| && k < |b| && IsDigit(a[k]) && IsDigit(b[k]) && |Run(IsDigit, a[k..])| == |Run(IsDigit, b[k..])|
    ensures Agree(a, b)
  {
    hide Common, DigitTail, Run, ChunkOrder;
    var k := Common(a, b);
    NumbersByDigits(DigitTail(a[..k]), a[k..], b[k..]);
  }

  lemma NumbersByDigits(digits: string, x: string, y: string)
    requires AllDigits(digits) && x != "" && y != "" && IsDigit(x[0]) && IsDigit(y[0]) && x[0] != y[0]
    requires |Run(IsDigit, x)| == |Run(IsDigit, y)|
    ensures Sign(NumberOf(digits, x) - NumberOf(digits, y)) == FirstSign(x, y) != 0
  {
    hide Run, Value;
    var r, s := Run(IsDigit, x), Run(IsDigit, y);
    RunStarts(IsDigit, x);
    RunStarts(IsDigit, y);
    CharOrder();
    LexCommonPrefix(CompareChar, digits, r, s);
    EqualLengthOrder(digits + r, digits + s);
  }

  /** Where a digit meets a letter, the orders agree right behind a letter, and elsewhere not if the digits count. */
  lemma DigitAgainstLetter(a: string, b: string)
    requires var k := Common(a, b); k < |a| && k < |b| && IsDigit(a[k]) && IsLetter(b[k])
    ensures var k := Common(a, b);
      && (k > 0 && IsLetter(a[k - 1]) ==> Agree(a, b))
      && ((k == 0 || !IsLetter(a[k - 1])) && NumberOf(DigitTail(a[..k]), a[k..]) != NumberOf(DigitTail(a[..k]), b[k..]) ==>
            !Agree(a, b))
  {
    hide Common, DigitTail, Run, ChunkOrder, Value;
    var k := Common(a, b);
    var digits := DigitTail(a[..k]);
    assert k > 0 ==> a[..k][k - 1] == a[k - 1];
    DigitRunEmpty(a[k..]);
    DigitRunEmpty(b[k..]);
    LongerIsLarger(digits, Run(IsDigit, a[k..]));
    assert digits + "" == digits;
  }

  lemma {:induction false} LongerIsLarger(digits: string, more: string)
    requires AllDigits(digits) && AllDigits(more)
    ensures AllDigits(digits + more) && Value(digits + more) >= Value(digits)
  {
    if more == "" {
      assert digits + more == digits;
    } else {
      var init := more[..|more| - 1];
      LongerIsLarger(digits, init);
      ValueAppend(digits + init, more[|more| - 1]);
      assert digits + init + [more[|more| - 1]] == digits + more;
    }
  }

  function Zeros(n: nat): (s: string)
    ensures |s| == n && AllDigits(s) && Value(s) == 0
  {
    if n == 0 then ""
    else
      var s := Zeros(n - 1);
      ValueAppend(s, '0');
      s + "0"
  }

  /** Numbers that are zero whatever their length tie, where ASCII puts the shorter one first. */
  lemma ZerosTie(word: string, m: nat, n: nat)
    requires word != "" && (forall i :: 0 <= i < |word| ==> IsLetter(word[i])) && 0 < m < n
    ensures ChunkOrder(word + Zeros(m), word + Zeros(n)) == 0
    ensures CompareStrings(word + Zeros(m), word + Zeros(n)) == -1
  {
    hide ChunkOrder, Zeros;
    var x, y := Zeros(m), Zeros(n);
    CommonStartDrops(word, x, y);
    ZeroKey(x);
    ZeroKey(y);
    NumbersDecide("", x, y);
    assert "" + x == x && "" + y == y;
    EndIsLowest("", "");
    CharOrder();
    LexCommonPrefix(CompareChar, word, x, y);
    ZerosGrow(m, n);
  }

  lemma ZeroKey(x: string)
    requires x != "" && AllDigits(x) && Value(x) == 0
    ensures Run(IsDigit, x) == x && Behind(IsDigit, x) == "" && NumberOf("", x) == 0
  {
    RunUnique(IsDigit, x, |x|);
    assert "" + x == x && x[..|x|] == x;
  }

  lemma {:induction false} ZerosGrow(m: nat, n: nat)
    requires m < n
    ensures CompareStrings(Zeros(m), Zeros(n)) == -1
  {
    ZerosPrefix(m, n);
    var x, y := Zeros(m), Zeros(n);
    assert y == x + y[m..] && x == x + "";
    CharOrder();
    LexCommonPrefix(CompareChar, x, "", y[m..]);
  }

  lemma {:induction false} ZerosPrefix(m: nat, n: nat)
    requires m <= n
    ensures Zeros(n)[..m] == Zeros(m)
  {
    if m < n {
      ZerosPrefix(m, n - 1);
      assert Zeros(n)[..m] == Zeros(n - 1)[..m];
    } else {
      assert Zeros(n)[..n] == Zeros(n);
    }
  }
}
