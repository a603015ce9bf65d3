/** The template expander: an envsubst that substitutes ${NAME} and $NAME and reads $$ as a dollar sign. */
module Templates {
  import opened Versions

  predicate NameStart(c: char) {
    'a' <= c <= 'z' || 'A' <= c <= 'Z' || c == '_'
  }

  predicate NameChar(c: char) {
    NameStart(c) || '0' <= c <= '9'
  }

  predicate NotClosing(c: char) {
    c != '}'
  }

  const NameMax := 256

  predicate ValidName(name: string) {
    name != "" && NameStart(name[0]) && forall i :: 0 <= i < |name| ==> NameChar(name[i])
  }

  method IsValidName(name: string) returns (ok: bool)
    ensures ok == ValidName(name)
  {
    if |name| == 0 || !NameStart(name[0]) { return false; }
    var i := 1;
    while i < |name|
      invariant 1 <= i <= |name| && forall j :: 0 <= j < i ==> NameChar(name[j])
    {
      if !NameChar(name[i]) { return false; }
      i := i + 1;
    }
    return true;
  }

  type Env = map<string, string>

  function Lookup(env: Env, name: string): (v: string) {
    if name in env then env[name] else ""
  }

  // ---- tokens ----

  datatype Token = Literal(c: char) | Escaped | Braced(name: string) | Bare(name: string) | Dollar {
    /** The template text of the token. */
    function Source(): (s: string)
      ensures |s| > 0
    {
      match this
      case Literal(c) => [c]
      case Escaped => "$$"
      case Braced(n) => "${" + n + "}"
      case Bare(n) => "$" + n
      case Dollar => "$"
    }

    function Output(env: Env): (s: string) {
      match this
      case Literal(c) => [c]
      case Escaped => "$"
      case Braced(n) => Lookup(env, n)
      case Bare(n) => Lookup(env, n)
      case Dollar => "$"
    }
  }

  function First(s: string): (t: Token)
    requires s != ""
  {
    if s[0] != '$' then Literal(s[0])
    else if |s| == 1 then Dollar
    else if s[1] == '$' then Escaped
    else if s[1] == '{' then
      var name := Run(NotClosing, s[2..]);
      if 2 + |name| < |s| && |name| < NameMax && ValidName(name) then Braced(name) else Dollar
    else if NameStart(s[1]) then
      var name := Run(NameChar, s[1..]);
      if |name| < NameMax then Bare(name) else Dollar
    else Dollar
  }

  lemma FirstIsPrefix(s: string)
    requires s != ""
    ensures var t := First(s).Source(); |t| <= |s| && s == t + s[|t|..]
  {
    var t := First(s);
    assert s == [s[0]] + s[1..];
    if t.Escaped? {
      assert s == "$$" + s[2..];
    } else if t.Braced? {
      var name := t.name;
      assert s[2..] == name + s[2 + |name|..] && s[2 + |name|] == '}';
      assert s == "${" + s[2..];
      assert s == "${" + name + "}" + s[3 + |name|..];
    } else if t.Bare? {
      var name := t.name;
      assert s[1..] == name + s[1 + |name|..];
      assert s == "$" + name + s[1 + |name|..];
    }
  }

  function Tokens(s: string): (ts: seq<Token>)
    decreases |s|
  {
    if s == "" then [] else
      FirstIsPrefix(s);
      [First(s)] + Tokens(s[|First(s).Source()|..])
  }

  function Sources(ts: seq<Token>): (s: string) {
    if ts == [] then "" else ts[0].Source() + Sources(ts[1..])
  }

  function Outputs(ts: seq<Token>, env: Env): (s: string) {
    if ts == [] then "" else ts[0].Output(env) + Outputs(ts[1..], env)
  }

  /** Expansion by tokens: the reference the scanning loop is proved against. */
  function Expanded(s: string, env: Env): (r: string) {
    Outputs(Tokens(s), env)
  }

  lemma ExpandedStep(s: string, env: Env)
    requires s != ""
    ensures var t := First(s);
      |t.Source()| <= |s| && Expanded(s, env) == t.Output(env) + Expanded(s[|t.Source()|..], env)
  {
    hide First, Lookup;
    FirstIsPrefix(s);
    var rest := s[|First(s).Source()|..];
    assert ([First(s)] + Tokens(rest))[1..] == Tokens(rest);
  }

  /** The tokens use up every byte of the template exactly once, in order. */
  lemma {:induction false} TokensCoverTemplate(s: string)
    ensures Sources(Tokens(s)) == s
    decreases |s|
  {
    hide First;
    if s != "" {
      FirstIsPrefix(s);
      var rest := s[|First(s).Source()|..];
      TokensCoverTemplate(rest);
      assert ([First(s)] + Tokens(rest))[1..] == Tokens(rest);
    }
  }

  /** The references a template makes are well-formed names that fit the name buffer. */
  lemma {:induction false} TokenNamesAreValid(s: string, i: nat)
    requires i < |Tokens(s)| && (Tokens(s)[i].Braced? || Tokens(s)[i].Bare?)
    ensures ValidName(Tokens(s)[i].name) && |Tokens(s)[i].name| < NameMax
    decreases |s|
  {
    FirstIsPrefix(s);
    var rest := s[|First(s).Source()|..];
    if i > 0 {
      TokenNamesAreValid(rest, i - 1);
    } else if Tokens(s)[0].Bare? {
      assert s[1..][0] == s[1];
    }
  }

  // ---- the scanning loop ----

  method ScanClosing(s: string, from: nat) returns (end: nat)
    requires from <= |s|
    ensures from <= end <= |s| && s[from..end] == Run(NotClosing, s[from..])
  {
    end := from;
    while end < |s| && s[end] != '}'
      invariant from <= end <= |s| && forall j :: from <= j < end ==> NotClosing(s[j])
    {
      end := end + 1;
    }
    RunUnique(NotClosing, s[from..], end - from);
    assert s[from..][..end - from] == s[from..end];
  }

  method ScanName(s: string, from: nat) returns (end: nat)
    requires from <= |s|
    ensures from <= end <= |s| && s[from..end] == Run(NameChar, s[from..])
  {
    end := from;
    while end < |s| && NameChar(s[end])
      invariant from <= end <= |s| && forall j :: from <= j < end ==> NameChar(s[j])
    {
      end := end + 1;
    }
    RunUnique(NameChar, s[from..], end - from);
    assert s[from..][..end - from] == s[from..end];
  }

  method Expand(s: string, env: Env) returns (out: string)
    ensures out == Expanded(s, env)
  {
    hide Expanded, Run, ValidName, Lookup;
    out := "";
    var i := 0;
    assert s[0..] == s && "" + Expanded(s, env) == Expanded(s, env);
    while i < |s|
      invariant 0 <= i <= |s|
      invariant out + Expanded(s[i..], env) == Expanded(s, env)
      decreases |s| - i
    {
      ghost var t := First(s[i..]);
      ExpandedStep(s[i..], env);
      var emitted, next := "$", i + 1;
      if s[i] != '$' {
        emitted := [s[i]];
      } else if i + 1 >= |s| {
      } else if s[i + 1] == '$' {
        next := i + 2;
      } else if s[i + 1] == '{' {
        var end := ScanClosing(s, i + 2);
        assert s[i..][2..] == s[i + 2..];
        var ok := IsValidName(s[i + 2..end]);
        if end < |s| && end - (i + 2) < NameMax && ok {
          emitted, next := Lookup(env, s[i + 2..end]), end + 1;
        }
      } else if NameStart(s[i + 1]) {
        var end := ScanName(s, i + 1);
        assert s[i..][1..] == s[i + 1..];
        if end - (i + 1) < NameMax {
          emitted, next := Lookup(env, s[i + 1..end]), end;
        }
      }
      assert emitted == t.Output(env) && next == i + |t.Source()|;
      assert s[i..][|t.Source()|..] == s[next..];
      assert out + (emitted + Expanded(s[next..], env)) == out + emitted + Expanded(s[next..], env);
      out := out + emitted;
      i := next;
    }
    ExpandedNothing(env);
    assert s[i..] == "" && out + "" == out;
  }

  lemma ExpandedNothing(env: Env)
    ensures Expanded("", env) == ""
  {
  }

  // ---- what templates mean ----

  /** The text with every dollar sign doubled. */
  function Doubled(s: string): (r: string) {
    if s == "" then "" else (if s[0] == '$' then "$$" else [s[0]]) + Doubled(s[1..])
  }

  /** Quoted text stands for itself, whatever follows it. */
  lemma {:induction false} QuotedText(a: string, rest: string, env: Env)
    ensures Expanded(Doubled(a) + rest, env) == a + Expanded(rest, env)
  {
    hide Expanded;
    var s := Doubled(a) + rest;
    if a == "" {
      assert s == rest && "" + Expanded(rest, env) == Expanded(rest, env);
    } else {
      var later := Doubled(a[1..]) + rest;
      QuotedText(a[1..], rest, env);
      ExpandedStep(s, env);
      assert s == (if a[0] == '$' then "$$" else [a[0]]) + later;
      assert s[0] == a[0] && (a[0] == '$' ==> s[1] == '$');
      assert s[|First(s).Source()|..] == later;
      assert [a[0]] + (a[1..] + Expanded(rest, env)) == a + Expanded(rest, env);
    }
  }

  lemma Reference(name: string, rest: string, env: Env)
    requires ValidName(name) && |name| < NameMax
    ensures Expanded("${" + name + "}" + rest, env) == Lookup(env, name) + Expanded(rest, env)
  {
    hide Expanded, Lookup, Run;
    var s := "${" + name + "}" + rest;
    assert s[2..] == name + "}" + rest;
    BraceContent(name, rest);
    ExpandedStep(s, env);
    assert s[|name| + 3..] == rest;
  }

  /** A bare name ends where the name characters end. */
  lemma BareReference(name: string, rest: string, env: Env)
    requires ValidName(name) && |name| < NameMax && (rest == "" || !NameChar(rest[0]))
    ensures Expanded("$" + name + rest, env) == Lookup(env, name) + Expanded(rest, env)
  {
    hide Expanded, Lookup;
    var s := "$" + name + rest;
    var tail := s[1..];
    assert tail == name + rest && s[1] == name[0];
    RunUnique(NameChar, tail, |name|);
    assert tail[..|name|] == name;
    ExpandedStep(s, env);
    assert s[|name| + 1..] == rest;
  }

  /** A dollar sign before nothing special is left as it is. */
  lemma LoneDollar(rest: string, env: Env)
    requires rest == "" || (rest[0] != '$' && rest[0] != '{' && !NameStart(rest[0]))
    ensures Expanded("$" + rest, env) == "$" + Expanded(rest, env)
  {
    hide Expanded;
    var s := "$" + rest;
    ExpandedStep(s, env);
    assert s[1..] == rest;
  }

  /** Text without a dollar sign stands for itself. */
  lemma {:induction false} PlainText(a: string, rest: string, env: Env)
    requires '$' !in a
    ensures Expanded(a + rest, env) == a + Expanded(rest, env)
  {
    hide Expanded, First;
    if a == "" {
      assert a + rest == rest && "" + Expanded(rest, env) == Expanded(rest, env);
    } else {
      PlainText(a[1..], rest, env);
      assert a + rest == [a[0]] + (a[1..] + rest);
      FirstOfPlain(a[0], a[1..] + rest);
      ExpandedStep(a + rest, env);
      assert (a + rest)[1..] == a[1..] + rest;
      assert [a[0]] + (a[1..] + Expanded(rest, env)) == a + Expanded(rest, env);
    }
  }

  /** Braces around anything but a name that fits stay, body and all, if the body holds no dollar sign of its own. */
  lemma BracesStay(body: string, rest: string, env: Env)
    requires '}' !in body && !(ValidName(body) && |body| < NameMax) && '$' !in body
    ensures Expanded("${" + body + "}" + rest, env) == "${" + body + "}" + Expanded(rest, env)
  {
    hide Expanded, ValidName;
    OpeningStays(body, rest, env);
    PlainText(body + "}", rest, env);
    assert "${" + (body + "}" + Expanded(rest, env)) == "${" + body + "}" + Expanded(rest, env);
  }

  /** In any case the opening stays, and what stands behind it is expanded in its turn. */
  lemma OpeningStays(body: string, rest: string, env: Env)
    requires '}' !in body && !(ValidName(body) && |body| < NameMax)
    ensures Expanded("${" + body + "}" + rest, env) == "${" + Expanded(body + "}" + rest, env)
  {
    hide Expanded, First;
    var tail := body + "}" + rest;
    assert "${" + body + "}" + rest == "$" + ("{" + tail);
    FirstOfBadBraces(body, rest);
    ExpandedStep("$" + ("{" + tail), env);
    assert ("$" + ("{" + tail))[1..] == "{" + tail;
    FirstOfPlain('{', tail);
    ExpandedStep("{" + tail, env);
    assert ("{" + tail)[1..] == tail;
    assert "$" + ("{" + Expanded(tail, env)) == "${" + Expanded(tail, env);
  }

  lemma FirstOfPlain(c: char, rest: string)
    requires c != '$'
    ensures First([c] + rest) == Literal(c)
  {
  }

  lemma FirstOfBadBraces(body: string, rest: string)
    requires '}' !in body && !(ValidName(body) && |body| < NameMax)
    ensures First("$" + ("{" + (body + "}" + rest))) == Dollar
  {
    hide ValidName, Run;
    var s := "$" + ("{" + (body + "}" + rest));
    assert s[1] == '{' && s[2..] == body + "}" + rest;
    BraceContent(body, rest);
  }

  /** What stands before the first closing brace. */
  lemma BraceContent(body: string, rest: string)
    requires '}' !in body
    ensures Run(NotClosing, body + "}" + rest) == body
  {
    hide Run;
    var tail := body + "}" + rest;
    assert forall j :: 0 <= j < |body| ==> tail[j] == body[j] && NotClosing(tail[j]);
    assert tail[|body|] == '}';
    RunUnique(NotClosing, tail, |body|);
    assert tail[..|body|] == body;
  }

  /** A template put together from quoted text and references. */
  datatype Piece = Quote(text: string) | Ref(name: string) {
    predicate Ok() { Ref? ==> ValidName(name) && |name| < NameMax }
    function Template(): (s: string) { if Quote? then Doubled(text) else "${" + name + "}" }
    function Meaning(env: Env): (s: string) { if Quote? then text else Lookup(env, name) }
  }

  function Template(ps: seq<Piece>): (s: string) {
    if ps == [] then "" else ps[0].Template() + Template(ps[1..])
  }

  function Meaning(ps: seq<Piece>, env: Env): (s: string) {
    if ps == [] then "" else ps[0].Meaning(env) + Meaning(ps[1..], env)
  }

  /** Such a template expands to its quoted text with every reference replaced by its value. */
  lemma {:induction false} TemplateMeaning(ps: seq<Piece>, env: Env)
    requires forall i :: 0 <= i < |ps| ==> ps[i].Ok()
    ensures Expanded(Template(ps), env) == Meaning(ps, env)
  {
    hide Expanded, Lookup, ValidName, Doubled;
    if ps == [] {
      ExpandedNothing(env);
    } else {
      TemplateMeaning(ps[1..], env);
      if ps[0].Quote? {
        QuotedText(ps[0].text, Template(ps[1..]), env);
      } else {
        Reference(ps[0].name, Template(ps[1..]), env);
      }
    }
  }

  /** Doubling every dollar sign quotes any text, in every environment. */
  lemma {:induction false} DoublingQuotes(s: string, env: Env)
    ensures Expanded(Doubled(s), env) == s
  {
    hide Expanded, Doubled;
    QuotedText(s, "", env);
    ExpandedNothing(env);
    assert Doubled(s) + "" == Doubled(s) && s + "" == s;
  }
}
