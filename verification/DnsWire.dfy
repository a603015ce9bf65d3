/** The DNS wire format of RFC 1035 as the dynamic-DNS test server writes and reads it. */
module DnsWire {
  import opened Options
  import opened Bytes

  type Name = seq<Byte>

  const Dot: Byte := 46
  const HeaderLength := 12
  const LabelMax := 63
  const NameMax := 255
  const TypeA := 1
  const TypeNs := 2
  const TypeCname := 5

  // ---- names ----

  /** The length of the first label. */
  function FirstLabel(name: Name): (n: nat)
    ensures n <= |name|
  {
    if name == [] || name[0] == Dot then 0 else 1 + FirstLabel(name[1..])
  }

  /** What follows the first label and its dot. */
  function AfterLabel(name: Name): (rest: Name)
    ensures name != [] ==> |rest| < |name| || FirstLabel(name) == 0
  {
    var n := FirstLabel(name);
    if n < |name| then name[n + 1..] else []
  }

  /** A name as length-prefixed labels and the root octet; none when a label is empty or too long. */
  function Encoded(name: Name): (e: Option<seq<Byte>>)
    decreases |name|
  {
    if name == [] then Some([0])
    else
      var n := FirstLabel(name);
      if n == 0 || n > LabelMax then None
      else
        match Encoded(AfterLabel(name))
        case None => None
        case Some(e) => Some([n] + name[..n] + e)
  }

  function LowerByte(b: Byte): (r: Byte) {
    if 65 <= b <= 90 then b + 32 else b
  }

  function Lower(s: seq<Byte>): (r: seq<Byte>)
    ensures |r| == |s|
  {
    seq(|s|, i requires 0 <= i < |s| => LowerByte(s[i]))
  }

  function Dotted(name: Name, part: seq<Byte>): (r: Name) {
    if name == [] then part else name + [Dot] + part
  }

  /** The name at the front of `s` appended to `name`, lower-cased, and what follows its root octet. */
  function ReadName(s: seq<Byte>, name: Name): (r: Option<(Name, seq<Byte>)>)
    ensures r.Some? ==> |r.value.1| < |s|
    decreases |s|
  {
    if s == [] then None
    else if s[0] == 0 then Some((name, s[1..]))
    else
      var l := s[0];
      if l > LabelMax || |s| < 1 + l || |name| + l + 1 > NameMax then None
      else ReadName(s[1 + l..], Dotted(name, Lower(s[1..1 + l])))
  }

  /** The name without the dot of the root, if it is written with one. */
  function WithoutRootDot(name: Name): (r: Name) {
    if name != [] && name[|name| - 1] == Dot then name[..|name| - 1] else name
  }

  lemma {:induction false} FirstLabelIs(name: Name, i: nat)
    requires i < FirstLabel(name)
    ensures name[i] != Dot
  {
    if i > 0 { FirstLabelIs(name[1..], i - 1); }
  }

  lemma {:induction false} FirstLabelEnds(name: Name)
    ensures FirstLabel(name) < |name| ==> name[FirstLabel(name)] == Dot
  {
    if name != [] && name[0] != Dot { FirstLabelEnds(name[1..]); }
  }

  lemma LoneLabel(name: Name)
    requires name != [] && FirstLabel(name) == |name|
    ensures AfterLabel(name) == [] && WithoutRootDot(name) == name
  {
    hide FirstLabel;
    FirstLabelIs(name, |name| - 1);
  }

  lemma LabelAndRest(name: Name)
    requires 0 < FirstLabel(name) < |name|
    ensures var front, rest := name[..FirstLabel(name)] + [Dot], AfterLabel(name);
      && name == front + rest
      && WithoutRootDot(name) == if rest == [] then name[..FirstLabel(name)] else front + WithoutRootDot(rest)
  {
    hide FirstLabel, WithoutRootDot;
    FirstLabelEnds(name);
    SplitAtDot(name, FirstLabel(name));
    RootDotOfRest(name[..FirstLabel(name)], AfterLabel(name));
  }

  lemma SplitAtDot(name: Name, n: nat)
    requires n < |name| && name[n] == Dot
    ensures name == name[..n] + [Dot] + name[n + 1..]
  {
  }

  lemma RootDotOfRest(front: Name, rest: Name)
    ensures WithoutRootDot(front + [Dot] + rest) == if rest == [] then front else front + [Dot] + WithoutRootDot(rest)
  {
    var name := front + [Dot] + rest;
    if rest == [] {
      assert name[|name| - 1] == Dot && name[..|name| - 1] == front;
    } else {
      assert name[|name| - 1] == rest[|rest| - 1];
      assert name[..|name| - 1] == front + [Dot] + rest[..|rest| - 1];
    }
  }

  lemma LowerConcat(a: seq<Byte>, b: seq<Byte>)
    ensures Lower(a + b) == Lower(a) + Lower(b)
  {
  }

  lemma {:induction false} EncodedLength(name: Name)
    requires Encoded(name).Some?
    ensures |Encoded(name).value| == if name == [] then 1 else |WithoutRootDot(name)| + 2
    ensures name != [] ==> WithoutRootDot(name) != []
    decreases |name|
  {
    hide FirstLabel, WithoutRootDot;
    if name != [] {
      if FirstLabel(name) == |name| { LoneLabel(name); } else { LabelAndRest(name); }
      EncodedLength(AfterLabel(name));
    }
  }

  /** One label read. */
  lemma ReadStep(part: seq<Byte>, after: seq<Byte>, before: Name)
    requires 0 < |part| <= LabelMax
    ensures ReadName([|part|] + part + after, before) ==
      if |before| + |part| + 1 > NameMax then None else ReadName(after, Dotted(before, Lower(part)))
  {
    hide Lower;
    var s := [|part|] + part + after;
    assert s[1..1 + |part|] == part && s[1 + |part|..] == after;
  }

  /** The labels of a name, dotted onto `before`, one after the other. */
  lemma DottedLabels(name: Name, before: Name)
    requires 0 < FirstLabel(name) && Encoded(AfterLabel(name)).Some?
    ensures var next := Dotted(before, Lower(name[..FirstLabel(name)]));
      Dotted(before, Lower(WithoutRootDot(name))) ==
      if AfterLabel(name) == [] then next else Dotted(next, Lower(WithoutRootDot(AfterLabel(name))))
  {
    hide FirstLabel, WithoutRootDot, Lower, Encoded;
    var n, later := FirstLabel(name), AfterLabel(name);
    if n == |name| {
      LoneLabel(name);
      assert name[..n] == name;
    } else {
      LabelAndRest(name);
      if later != [] {
        LowerConcat(name[..n] + [Dot], WithoutRootDot(later));
        LowerConcat(name[..n], [Dot]);
        LowerDot();
      }
    }
  }

  /** Reading an encoded name onto `before` adds its labels, as long as the parser's own limit allows. */
  lemma {:induction false} ReadEncoded(name: Name, before: Name, rest: seq<Byte>)
    requires Encoded(name).Some? && |before| <= NameMax
    ensures var whole := if name == [] then before else Dotted(before, Lower(WithoutRootDot(name)));
      ReadName(Encoded(name).value + rest, before) == if |whole| <= NameMax then Some((whole, rest)) else None
    decreases |name|
  {
    hide Lower, FirstLabel, WithoutRootDot;
    if name == [] {
      assert [0] + rest == Encoded(name).value + rest;
    } else {
      var n, later := FirstLabel(name), AfterLabel(name);
      var e := Encoded(later).value;
      assert Encoded(name).value + rest == [n] + name[..n] + (e + rest);
      ReadStep(name[..n], e + rest, before);
      DottedLabels(name, before);
      if |before| + n + 1 <= NameMax {
        ReadEncoded(later, Dotted(before, Lower(name[..n])), rest);
      }
    }
  }

  lemma LowerDot()
    ensures Lower([Dot]) == [Dot]
  {
  }

  // ---- queries ----

  datatype Query = Query(id: nat, flags: nat, name: Name, qtype: nat, qclass: nat, question: seq<Byte>) {
    predicate Ok() { id < 65536 && flags < 65536 }
  }

  function Word(s: seq<Byte>, at: nat): (n: nat)
    requires at + 2 <= |s|
    ensures n < 65536
  {
    256 * (s[at] as int) + s[at + 1]
  }

  /** The record's question field holds a name of up to 256 octets, a type and a class. */
  const QuestionMax := NameMax + 1 + 4

  /** Overrun: the question is longer than its field, so copying it leaves the record. */
  datatype ParseResult = Malformed | Overrun | Parsed(query: Query)

  function ParsedQuery(buf: seq<Byte>): (q: ParseResult)
    ensures q.Parsed? ==> q.query.Ok() && |q.query.question| <= QuestionMax
  {
    if |buf| < HeaderLength || buf[2] >= 128 || Word(buf, 4) != 1 then Malformed
    else
      match ReadName(buf[HeaderLength..], [])
      case None => Malformed
      case Some((name, rest)) =>
        if |rest| < 4 then Malformed
        else
          var question := buf[HeaderLength..|buf| - |rest| + 4];
          if |question| > QuestionMax then Overrun
          else Parsed(Query(Word(buf, 0), Word(buf, 2), name, Word(rest, 0), Word(rest, 2), question))
  }

  /** How many octets a name takes, and how long it can get. */
  lemma {:induction false} OctetsOfName(s: seq<Byte>, name: Name)
    requires ReadName(s, name).Some? && |name| <= NameMax
    ensures var (n, rest) := ReadName(s, name).value;
      && |name| <= |n| <= NameMax
      && |s| - |rest| == 1 + |n| - |name| + if name == [] && n != [] then 1 else 0
    decreases |s|
  {
    hide Lower;
    if s[0] != 0 {
      var l: int := s[0];
      OctetsOfName(s[1 + l..], Dotted(name, Lower(s[1..1 + l])));
    }
  }

  /**
   * Whatever the packet: a parsed name and its terminator fit the record's name field, and a
   * question overruns its field exactly when the name has 255 characters, and then by one octet.
   */
  lemma RecordFieldsFit(buf: seq<Byte>)
    requires |buf| >= HeaderLength && buf[2] < 128 && Word(buf, 4) == 1 && ReadName(buf[HeaderLength..], []).Some?
    requires |ReadName(buf[HeaderLength..], []).value.1| >= 4
    ensures var (name, rest) := ReadName(buf[HeaderLength..], []).value;
      && |name| + 1 <= NameMax + 1
      && (ParsedQuery(buf).Overrun? <==> |name| == NameMax)
      && (ParsedQuery(buf).Overrun? ==> |buf[HeaderLength..|buf| - |rest| + 4]| == QuestionMax + 1)
  {
    hide ReadName, Word;
    OctetsOfName(buf[HeaderLength..], []);
  }

  method AppendLabel(name: Name, part: seq<Byte>) returns (r: Name)
    ensures r == Dotted(name, Lower(part))
  {
    r := if name != [] then name + [Dot] else [];
    var i := 0;
    ghost var start := r;
    while i < |part|
      invariant 0 <= i <= |part|
      invariant r == start + Lower(part)[..i]
    {
      r := r + [LowerByte(part[i])];
      i := i + 1;
    }
  }

  /** One step of reading a name inside a packet. */
  lemma ReadNameAt(buf: seq<Byte>, pos: nat, name: Name)
    requires pos <= |buf|
    ensures ReadName(buf[pos..], name) ==
      if pos == |buf| then None
      else if buf[pos] == 0 then Some((name, buf[pos + 1..]))
      else if buf[pos] > LabelMax || pos + 1 + buf[pos] > |buf| || |name| + buf[pos] + 1 > NameMax then None
      else ReadName(buf[pos + 1 + buf[pos]..], Dotted(name, Lower(buf[pos + 1..pos + 1 + buf[pos]])))
  {
    hide Dotted, Lower, ReadName;
    ReadNameFails(buf[pos..], name);
    if pos < |buf| {
      var l: int := buf[pos];
      if l == 0 {
        ReadRootOctet(buf[pos + 1..], name);
        assert buf[pos..] == [0] + buf[pos + 1..];
      } else if l <= LabelMax && pos + 1 + l <= |buf| {
        SliceLabel(buf, pos, l);
        ReadStep(buf[pos + 1..pos + 1 + l], buf[pos + 1 + l..], name);
      }
    }
  }

  lemma ReadNameFails(s: seq<Byte>, name: Name)
    ensures s == [] || s[0] > LabelMax || (s[0] != 0 && |s| < 1 + s[0]) ==> ReadName(s, name) == None
  {
  }

  lemma ReadRootOctet(rest: seq<Byte>, name: Name)
    ensures ReadName([0] + rest, name) == Some((name, rest))
  {
  }

  lemma SliceLabel(buf: seq<Byte>, pos: nat, l: nat)
    requires pos + 1 + l <= |buf| && buf[pos] == l
    ensures buf[pos..] == [l] + buf[pos + 1..pos + 1 + l] + buf[pos + 1 + l..]
  {
  }

  method ParseQuery(buf: seq<Byte>) returns (q: ParseResult)
    ensures q == ParsedQuery(buf)
  {
    hide Dotted, Lower, ReadName;
    if |buf| < HeaderLength { return Malformed; }
    if buf[2] >= 128 { return Malformed; }
    if Word(buf, 4) != 1 { return Malformed; }
    var pos := HeaderLength;
    var name: Name := [];
    while pos < |buf| && buf[pos] != 0
      invariant HeaderLength <= pos <= |buf|
      invariant ReadName(buf[HeaderLength..], []) == ReadName(buf[pos..], name)
    {
      var l := buf[pos];
      ReadNameAt(buf, pos, name);
      if l > LabelMax { return Malformed; }
      pos := pos + 1;
      if pos + l > |buf| || |name| + l + 1 > NameMax { return Malformed; }
      name := AppendLabel(name, buf[pos..pos + l]);
      pos := pos + l;
    }
    ReadNameAt(buf, pos, name);
    if pos >= |buf| { return Malformed; }
    pos := pos + 1;
    if pos + 4 > |buf| { return Malformed; }
    var question := buf[HeaderLength..pos + 4];
    if |question| > QuestionMax { return Overrun; }
    return Parsed(Query(Word(buf, 0), Word(buf, 2), name, Word(buf, pos), Word(buf, pos + 2), question));
  }

  /** A query as a client writes it: the header, the name, its type and its class. */
  function QueryBytes(id: nat, flags: nat, others: seq<Byte>, e: seq<Byte>, qtype: nat, qclass: nat): (s: seq<Byte>) {
    QueryHead(id, flags, others) + e + BigEndian(qtype, 2) + BigEndian(qclass, 2)
  }

  function QueryHead(id: nat, flags: nat, others: seq<Byte>): (s: seq<Byte>)
    ensures |s| == 6 + |others|
  {
    BigEndian(id, 2) + BigEndian(flags, 2) + [0, 1] + others
  }

  lemma TwoBytes(n: nat)
    ensures BigEndian(n, 2) == [n / 256 % 256, n % 256]
    ensures n < 65536 ==> Word(BigEndian(n, 2), 0) == n
  {
    assert BigEndian(n / 256, 1) == [n / 256 % 256];
  }

  /**
   * A query for any encodable name is read back, with the name in lower case and without a root
   * dot, and without leaving the record, exactly when the encoded name has at most 256 octets, one
   * more than RFC 1035 allows. At 257 octets the length test still passes and the question overruns
   * its field; beyond that the query is refused.
   */
  lemma QueryRoundTrip(id: nat, flags: nat, others: seq<Byte>, name: Name, qtype: nat, qclass: nat, tail: seq<Byte>)
    requires id < 65536 && flags < 32768 && |others| == 6 && qtype < 65536 && qclass < 65536 && Encoded(name).Some?
    ensures var e := Encoded(name).value;
      ParsedQuery(QueryBytes(id, flags, others, e, qtype, qclass) + tail) ==
      if |e| <= NameMax + 1
      then Parsed(Query(id, flags, Lower(WithoutRootDot(name)), qtype, qclass, e + BigEndian(qtype, 2) + BigEndian(qclass, 2)))
      else if |e| == NameMax + 2 then Overrun
      else Malformed
  {
    hide Encoded, ReadName, Lower, BigEndian, WithoutRootDot, Word, QueryHead;
    var e := Encoded(name).value;
    var t, c := BigEndian(qtype, 2), BigEndian(qclass, 2);
    var rest := t + c + tail;
    var buf := QueryBytes(id, flags, others, e, qtype, qclass) + tail;
    assert buf == QueryHead(id, flags, others) + (e + rest);
    QueryHeadWords(id, flags, others, e + rest);
    ReadEncoded(name, [], rest);
    EncodedLength(name);
    EmptyName();
    QueryTailWords(qtype, qclass, tail);
    QuestionSlice(QueryHead(id, flags, others), e, t + c, tail);
    assert e + (t + c) == e + t + c;
  }

  lemma QueryHeadWords(id: nat, flags: nat, others: seq<Byte>, t: seq<Byte>)
    requires id < 65536 && flags < 32768 && |others| == 6
    ensures var s := QueryHead(id, flags, others) + t;
      |s| == HeaderLength + |t| && Word(s, 0) == id && Word(s, 2) == flags && s[2] < 128 && Word(s, 4) == 1 && s[HeaderLength..] == t
  {
    hide BigEndian;
    TwoBytes(id);
    TwoBytes(flags);
  }

  lemma QueryTailWords(qtype: nat, qclass: nat, tail: seq<Byte>)
    requires qtype < 65536 && qclass < 65536
    ensures var s := BigEndian(qtype, 2) + BigEndian(qclass, 2) + tail; Word(s, 0) == qtype && Word(s, 2) == qclass
  {
    hide BigEndian;
    TwoBytes(qtype);
    TwoBytes(qclass);
  }

  lemma QuestionSlice(head: seq<Byte>, e: seq<Byte>, fixed: seq<Byte>, tail: seq<Byte>)
    requires |head| == HeaderLength && |fixed| == 4
    ensures var s, rest := head + (e + (fixed + tail)), fixed + tail;
      s[HeaderLength..|s| - |rest| + 4] == e + fixed
  {
  }

  lemma EmptyName()
    ensures WithoutRootDot([]) == [] && Lower([]) == []
  {
  }

  /** Within the limits of RFC 1035 a lower-case name, its type and its class are recovered as they were. */
  lemma LowerCaseQueryRecovered(id: nat, flags: nat, others: seq<Byte>, name: Name, qtype: nat, qclass: nat)
    requires id < 65536 && flags < 32768 && |others| == 6 && qtype < 65536 && qclass < 65536
    requires Encoded(name).Some? && |Encoded(name).value| <= NameMax
    requires Lower(name) == name && WithoutRootDot(name) == name
    ensures var q := ParsedQuery(QueryBytes(id, flags, others, Encoded(name).value, qtype, qclass));
      q.Parsed? && q.query.name == name && q.query.qtype == qtype && q.query.qclass == qclass && q.query.id == id
  {
    hide Encoded, ReadName, Lower, BigEndian, WithoutRootDot, ParsedQuery;
    var s := QueryBytes(id, flags, others, Encoded(name).value, qtype, qclass);
    QueryRoundTrip(id, flags, others, name, qtype, qclass, []);
    assert s + [] == s;
  }

  function Labels(parts: nat, part: Name): (name: Name) {
    if parts == 0 then [] else if parts == 1 then part else part + [Dot] + Labels(parts - 1, part)
  }

  lemma {:induction false} LabelsEncode(parts: nat, part: Name)
    requires 0 < |part| <= LabelMax && Dot !in part
    ensures Encoded(Labels(parts, part)).Some? && |Encoded(Labels(parts, part)).value| == parts * (1 + |part|) + 1
    ensures parts > 0 ==> Labels(parts, part) != []
  {
    hide Encoded;
    if parts == 0 {
      EmptyEncodes();
    } else if parts == 1 {
      LabelAlone(part);
    } else {
      LabelsEncode(parts - 1, part);
      LabelInFront(part, Labels(parts - 1, part));
      assert parts * (1 + |part|) == (parts - 1) * (1 + |part|) + (1 + |part|);
    }
  }

  lemma EmptyEncodes()
    ensures Encoded([]).Some? && |Encoded([]).value| == 1
  {
  }

  lemma LabelAlone(part: Name)
    requires 0 < |part| <= LabelMax && Dot !in part
    ensures Encoded(part).Some? && |Encoded(part).value| == 1 + |part| + 1
  {
    hide FirstLabel;
    LabelFirst(part, []);
    assert part + [] == part;
    LoneLabel(part);
  }

  lemma LabelInFront(part: Name, rest: Name)
    requires 0 < |part| <= LabelMax && Dot !in part && rest != [] && Encoded(rest).Some?
    ensures var name := part + [Dot] + rest;
      Encoded(name).Some? && |Encoded(name).value| == 1 + |part| + |Encoded(rest).value|
  {
    hide FirstLabel;
    var name := part + [Dot] + rest;
    LabelFirst(part, [Dot] + rest);
    assert part + ([Dot] + rest) == name;
    assert name[|part| + 1..] == rest;
  }

  lemma {:induction false} LabelFirst(part: Name, rest: Name)
    requires Dot !in part && (rest == [] || rest[0] == Dot)
    ensures FirstLabel(part + rest) == |part|
  {
    if part == [] {
      assert part + rest == rest;
    } else {
      LabelFirst(part[1..], rest);
      assert (part + rest)[1..] == part[1..] + rest;
    }
  }

  /** Four labels of 63 octets: a name the parser accepts and whose question leaves the record. */
  lemma FourLongLabelsOverrun(part: Name, id: nat, flags: nat, others: seq<Byte>, qtype: nat, qclass: nat)
    requires |part| == LabelMax && Dot !in part
    requires id < 65536 && flags < 32768 && |others| == 6 && qtype < 65536 && qclass < 65536
    ensures Encoded(Labels(4, part)).Some? && |Encoded(Labels(4, part)).value| == NameMax + 2
    ensures ParsedQuery(QueryBytes(id, flags, others, Encoded(Labels(4, part)).value, qtype, qclass)) == Overrun
  {
    hide Encoded, ParsedQuery, QueryBytes, Labels;
    LabelsEncode(4, part);
    var e := Encoded(Labels(4, part)).value;
    QueryRoundTrip(id, flags, others, Labels(4, part), qtype, qclass, []);
    assert QueryBytes(id, flags, others, e, qtype, qclass) + [] == QueryBytes(id, flags, others, e, qtype, qclass);
  }

  // ---- writing into the caller's buffer ----

  /** `b` has `x` where `a` had other bytes, from `at` on, and is otherwise `a`. */
  ghost predicate Written(a: seq<Byte>, b: seq<Byte>, at: nat, x: seq<Byte>) {
    && |b| == |a| && at + |x| <= |a|
    && b[..at] == a[..at] && b[at..at + |x|] == x && b[at + |x|..] == a[at + |x|..]
  }

  ghost predicate KeptBefore(a: seq<Byte>, b: seq<Byte>, at: nat) {
    |b| == |a| && at <= |a| && b[..at] == a[..at]
  }

  lemma WrittenOn(a: seq<Byte>, b: seq<Byte>, c: seq<Byte>, at: nat, x: seq<Byte>, y: seq<Byte>)
    requires Written(a, b, at, x) && Written(b, c, at + |x|, y)
    ensures Written(a, c, at, x + y)
  {
    var m, n := at + |x|, at + |x| + |y|;
    assert c[..at] == c[..m][..at] && b[..at] == b[..m][..at];
    assert c[at..m] == c[..m][at..] && b[at..m] == b[..m][at..];
    assert c[at..n] == c[at..m] + c[m..n];
    assert b[n..] == b[m..][|y|..] && a[n..] == a[m..][|y|..];
  }

  lemma WrittenOver(a: seq<Byte>, b: seq<Byte>, c: seq<Byte>, at: nat, x: seq<Byte>, y: seq<Byte>, z: seq<Byte>)
    requires Written(a, b, at, x + y) && Written(b, c, at, z) && |z| == |x|
    ensures Written(a, c, at, z + y)
  {
    var m, n := at + |x|, at + |x| + |y|;
    assert b[m..n] == b[at..n][|x|..] && (x + y)[|x|..] == y;
    assert c[m..n] == c[m..][..|y|] && b[m..n] == b[m..][..|y|];
    assert c[at..n] == c[at..m] + c[m..n];
    assert c[n..] == c[m..][|y|..] && b[n..] == b[m..][|y|..];
  }

  lemma KeptOn(a: seq<Byte>, b: seq<Byte>, c: seq<Byte>, at: nat, x: seq<Byte>)
    requires Written(a, b, at, x) && KeptBefore(b, c, at + |x|)
    ensures KeptBefore(a, c, at)
  {
    var m := at + |x|;
    assert c[..at] == c[..m][..at] && b[..at] == b[..m][..at];
  }

  method Put(out: array<Byte>, at: nat, x: seq<Byte>)
    requires at + |x| <= out.Length
    modifies out
    ensures Written(old(out[..]), out[..], at, x)
  {
    forall i | 0 <= i < |x| { out[at + i] := x[i]; }
    assert out[..][..at] == old(out[..])[..at];
    assert out[..][at..at + |x|] == x;
    assert out[..][at + |x|..] == old(out[..])[at + |x|..];
  }

  /**
   * Writes a name at `off`. It succeeds exactly when the name can be encoded and fits, and touches
   * nothing before `off` either way.
   */
  method EncodeName(name: Name, out: array<Byte>, off: nat) returns (n: int)
    requires off <= out.Length
    modifies out
    ensures n >= 0 <==> Encoded(name).Some? && off + |Encoded(name).value| <= out.Length
    ensures n >= 0 ==> n == |Encoded(name).value| && Written(old(out[..]), out[..], off, Encoded(name).value)
    ensures n < 0 ==> n == -1 && KeptBefore(old(out[..]), out[..], off)
  {
    hide FirstLabel, Written, KeptBefore, Encoded, Continues, AfterLabel;
    ghost var start := out[..];
    ghost var done: seq<Byte> := [];
    ghost var whole := Encoded(name);
    var pos, rest := off, name;
    WrittenNothing(start, off);
    ContinuesFromStart(whole);
    while rest != []
      invariant off <= pos <= out.Length && pos == off + |done|
      invariant Written(start, out[..], off, done)
      invariant Continues(whole, done, Encoded(rest))
      decreases |rest|
    {
      var l := FirstLabel(rest);
      KeepsBefore(start, out[..], off, done);
      ContinuesOn(whole, done, rest);
      if l == 0 || l > LabelMax { return -1; }
      if pos + 1 + l > out.Length { return -1; }
      ghost var before := out[..];
      Put(out, pos, [l] + rest[..l]);
      WrittenOn(start, before, out[..], off, done, [l] + rest[..l]);
      done := done + ([l] + rest[..l]);
      pos := pos + 1 + l;
      rest := AfterLabel(rest);
    }
    KeepsBefore(start, out[..], off, done);
    ContinuesToRoot(whole, done);
    if pos + 1 > out.Length { return -1; }
    ghost var before := out[..];
    Put(out, pos, [0]);
    WrittenOn(start, before, out[..], off, done, [0]);
    return pos + 1 - off;
  }

  /** `whole` is `done` followed by `rest`, when there is a rest. */
  ghost predicate Continues(whole: Option<seq<Byte>>, done: seq<Byte>, rest: Option<seq<Byte>>) {
    whole == if rest.Some? then Some(done + rest.value) else None
  }

  lemma ContinuesFromStart(whole: Option<seq<Byte>>)
    ensures Continues(whole, [], whole)
  {
    assert whole.Some? ==> [] + whole.value == whole.value;
  }

  lemma ContinuesToRoot(whole: Option<seq<Byte>>, done: seq<Byte>)
    requires Continues(whole, done, Encoded([]))
    ensures whole == Some(done + [0])
  {
  }

  /** One label further, or no further at all. */
  lemma ContinuesOn(whole: Option<seq<Byte>>, done: seq<Byte>, rest: Name)
    requires Continues(whole, done, Encoded(rest)) && rest != []
    ensures var l := FirstLabel(rest);
      if l == 0 || l > LabelMax then whole == None
      else
        && (whole.Some? ==> |whole.value| >= |done| + 1 + l)
        && Continues(whole, done + ([l] + rest[..l]), Encoded(AfterLabel(rest)))
        && |AfterLabel(rest)| < |rest|
  {
    hide FirstLabel;
    var l, e := FirstLabel(rest), Encoded(AfterLabel(rest));
    if 0 < l <= LabelMax && e.Some? {
      assert done + ([l] + rest[..l] + e.value) == done + ([l] + rest[..l]) + e.value;
    }
  }

  lemma WrittenNothing(a: seq<Byte>, at: nat)
    requires at <= |a|
    ensures Written(a, a, at, [])
  {
  }

  lemma KeepsBefore(a: seq<Byte>, b: seq<Byte>, at: nat, x: seq<Byte>)
    requires Written(a, b, at, x)
    ensures KeptBefore(a, b, at) && |a| == |b|
  {
  }
}
