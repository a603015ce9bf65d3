/** DNS responses: writing one into a buffer, and reading it back as RFC 1035 describes it. */
module DnsResponse {
  import opened Options
  import opened Bytes
  import opened DnsWire

  datatype Answer = Answer(owner: Name, rtype: nat, data: Name, ttl: nat) {
    predicate Ok() { rtype < 65536 && ttl < 0x1_0000_0000 }
  }

  /** An IPv4 address in network order, as inet_pton leaves it. */
  datatype Quad = Quad(a: Byte, b: Byte, c: Byte, d: Byte)

  type Pton = Name -> Option<Quad>

  function RdataOf(pton: Pton, a: Answer): (r: Option<seq<Byte>>) {
    if a.rtype == TypeA then
      match pton(a.data)
      case None => None
      case Some(q) => Some([q.a, q.b, q.c, q.d])
    else if a.rtype == TypeNs || a.rtype == TypeCname then Encoded(a.data)
    else None
  }

  /** Type, class IN and TTL. */
  function Fixed(a: Answer): (s: seq<Byte>)
    ensures |s| == 8
  {
    BigEndian(a.rtype, 2) + [0, 1] + BigEndian(a.ttl, 4)
  }

  /** One answer; the length field holds sixteen bits of the data's length. */
  function AnswerBytes(pton: Pton, a: Answer): (r: Option<seq<Byte>>) {
    match Encoded(a.owner)
    case None => None
    case Some(owner) =>
      match RdataOf(pton, a)
      case None => None
      case Some(data) => Some(owner + (Fixed(a) + (BigEndian(|data|, 2) + data)))
  }

  function AllAnswers(pton: Pton, answers: seq<Answer>): (r: Option<seq<Byte>>) {
    if answers == [] then Some([])
    else
      match AnswerBytes(pton, answers[0])
      case None => None
      case Some(first) =>
        match AllAnswers(pton, answers[1..])
        case None => None
        case Some(more) => Some(first + more)
  }

  /** QR and AA set, the query's opcode, RA for the resolver role, and the low bits of the code. */
  function ResponseFlags(flags: nat, rcode: int, recursive: bool): (n: nat)
    ensures n < 65536
  {
    0x8000 + 0x0400 + (if recursive then 0x0080 else 0) + flags / 0x0800 % 16 * 0x0800 + rcode % 16
  }

  function Header(q: Query, rcode: int, count: nat, recursive: bool): (s: seq<Byte>)
    ensures |s| == HeaderLength
  {
    BigEndian(q.id, 2) + BigEndian(ResponseFlags(q.flags, rcode, recursive), 2) + [0, 1] + BigEndian(count, 2) + [0, 0, 0, 0]
  }

  function ResponseBytes(pton: Pton, q: Query, rcode: int, answers: seq<Answer>, recursive: bool): (r: Option<seq<Byte>>) {
    match AllAnswers(pton, answers)
    case None => None
    case Some(body) => Some(Header(q, rcode, |answers|, recursive) + (q.question + body))
  }

  // ---- writing ----

  lemma FourBytes(n: nat)
    ensures BigEndian(n, 4) == [n / 0x100_0000 % 256, n / 0x1_0000 % 256, n / 256 % 256, n % 256]
  {
    var h := n / 0x1_0000;
    assert h / 256 == n / 0x100_0000;
    assert BigEndian(n, 4) == BigEndian(n / 256, 3) + [n % 256];
    assert BigEndian(n / 256, 3) == BigEndian(n / 256 / 256, 2) + [n / 256 % 256];
    assert n / 256 / 256 == h;
    TwoBytes(h);
  }

  /** What a writer that started at `off` promises: the bytes of `want` if there are any and they fit. */
  ghost predicate Wrote(before: seq<Byte>, after: seq<Byte>, off: nat, want: Option<seq<Byte>>, end: Option<nat>) {
    && |after| == |before|
    && (end.Some? <==> want.Some? && off + |want.value| <= |before|)
    && (end.Some? ==> end.value == off + |want.value| && Written(before, after, off, want.value))
    && (end.None? ==> KeptBefore(before, after, off))
  }

  lemma WroteAfter(a: seq<Byte>, b: seq<Byte>, c: seq<Byte>, off: nat, front: seq<Byte>, rest: Option<seq<Byte>>, end: Option<nat>)
    requires Written(a, b, off, front) && Wrote(b, c, off + |front|, rest, end)
    ensures Wrote(a, c, off, if rest.Some? then Some(front + rest.value) else None, end)
  {
    if end.Some? {
      WrittenOn(a, b, c, off, front, rest.value);
    } else {
      KeptOn(a, b, c, off, front);
    }
  }

  method AppendRdata(pton: Pton, a: Answer, out: array<Byte>, off: nat) returns (end: Option<nat>)
    requires off <= out.Length
    modifies out
    ensures var data := RdataOf(pton, a);
      Wrote(old(out[..]), out[..], off, if data.Some? then Some(BigEndian(|data.value|, 2) + data.value) else None, end)
  {
    hide Encoded, Written;
    ghost var start := out[..];
    WrittenNothing(start, off);
    KeepsBefore(start, start, off, []);
    if a.rtype == TypeA {
      var addr := pton(a.data);
      if addr.None? { return None; }
      TwoBytes(4);
      if off + 6 > out.Length { return None; }
      Put(out, off, [0, 4] + [addr.value.a, addr.value.b, addr.value.c, addr.value.d]);
      return Some(off + 6);
    } else if a.rtype == TypeNs || a.rtype == TypeCname {
      if off + 2 > out.Length { return None; }
      Put(out, off, [0, 0]);
      ghost var blank := out[..];
      var n := EncodeName(a.data, out, off + 2);
      if n < 0 {
        KeptOn(start, blank, out[..], off, [0, 0]);
        return None;
      }
      ghost var name := Encoded(a.data).value;
      ghost var filled := out[..];
      WrittenOn(start, blank, filled, off, [0, 0], name);
      TwoBytes(n);
      Put(out, off, [n / 256 % 256, n % 256]);
      WrittenOver(start, filled, out[..], off, [0, 0], name, [n / 256 % 256, n % 256]);
      return Some(off + 2 + n);
    } else {
      return None;
    }
  }

  method AppendAnswer(pton: Pton, a: Answer, out: array<Byte>, off: nat) returns (end: Option<nat>)
    requires off <= out.Length && a.Ok()
    modifies out
    ensures Wrote(old(out[..]), out[..], off, AnswerBytes(pton, a), end)
  {
    hide Encoded, Written, RdataOf, KeptBefore;
    ghost var start := out[..];
    var n := EncodeName(a.owner, out, off);
    if n < 0 { return None; }
    var pos := off + n;
    ghost var owner := Encoded(a.owner).value;
    ghost var named := out[..];
    KeepsBefore(start, named, off, owner);
    if pos + 10 > out.Length { return None; }
    TwoBytes(a.rtype);
    FourBytes(a.ttl);
    Put(out, pos, [a.rtype / 256 % 256, a.rtype % 256] + [0, 1]
                  + [a.ttl / 0x100_0000 % 256, a.ttl / 0x1_0000 % 256, a.ttl / 256 % 256, a.ttl % 256]);
    ghost var typed := out[..];
    end := AppendRdata(pton, a, out, pos + 8);
    ghost var data := RdataOf(pton, a);
    ghost var tail := if data.Some? then Some(BigEndian(|data.value|, 2) + data.value) else None;
    WroteAfter(named, typed, out[..], pos, Fixed(a), tail, end);
    WroteAfter(start, named, out[..], off, owner, if tail.Some? then Some(Fixed(a) + tail.value) else None, end);
  }

  method AppendAnswers(pton: Pton, answers: seq<Answer>, out: array<Byte>, off: nat) returns (end: Option<nat>)
    requires off <= out.Length && forall i :: 0 <= i < |answers| ==> answers[i].Ok()
    modifies out
    ensures Wrote(old(out[..]), out[..], off, AllAnswers(pton, answers), end)
  {
    hide Written, AnswerBytes, KeptBefore, Wrote, AllAnswers;
    ghost var start := out[..];
    ghost var done: seq<Byte> := [];
    var pos := off;
    WrittenNothing(start, pos);
    AllStart(pton, answers);
    var i := 0;
    while i < |answers|
      invariant 0 <= i <= |answers| && pos == off + |done| && pos <= out.Length
      invariant Written(start, out[..], off, done)
      invariant Continues(AllAnswers(pton, answers), done, AllAnswers(pton, answers[i..]))
    {
      ghost var before := out[..];
      ghost var want := AnswerBytes(pton, answers[i]);
      var next := AppendAnswer(pton, answers[i], out, pos);
      AllStep(pton, answers, i, done);
      if next.None? {
        AllFails(start, before, out[..], off, done, want, AllAnswers(pton, answers));
        return None;
      }
      OneWrote(before, out[..], pos, want, next);
      WrittenOn(start, before, out[..], off, done, want.value);
      done := done + want.value;
      pos := next.value;
      i := i + 1;
    }
    assert answers[i..] == [];
    AllEnd(pton, answers, done);
    AllWrote(start, out[..], off, done);
    return Some(pos);
  }

  lemma AllStart(pton: Pton, answers: seq<Answer>)
    ensures Continues(AllAnswers(pton, answers), [], AllAnswers(pton, answers[0..]))
  {
    hide AnswerBytes;
    assert answers[0..] == answers;
    assert AllAnswers(pton, answers).Some? ==> [] + AllAnswers(pton, answers).value == AllAnswers(pton, answers).value;
  }

  lemma AllEnd(pton: Pton, answers: seq<Answer>, done: seq<Byte>)
    requires Continues(AllAnswers(pton, answers), done, AllAnswers(pton, []))
    ensures AllAnswers(pton, answers) == Some(done)
  {
    assert done + [] == done;
  }

  lemma OneWrote(a: seq<Byte>, b: seq<Byte>, off: nat, want: Option<seq<Byte>>, end: Option<nat>)
    requires Wrote(a, b, off, want, end) && end.Some?
    ensures want.Some? && end.value == off + |want.value| <= |a| == |b| && Written(a, b, off, want.value)
  {
  }

  lemma AllWrote(a: seq<Byte>, b: seq<Byte>, off: nat, done: seq<Byte>)
    requires Written(a, b, off, done)
    ensures Wrote(a, b, off, Some(done), Some(off + |done|))
  {
  }

  /** When the next part cannot be written, neither can the whole. */
  lemma AllFails(
    a: seq<Byte>, b: seq<Byte>, c: seq<Byte>, off: nat, done: seq<Byte>, next: Option<seq<Byte>>, whole: Option<seq<Byte>>)
    requires Written(a, b, off, done) && Wrote(b, c, off + |done|, next, None)
    requires whole.Some? ==> next.Some? && |whole.value| >= |done| + |next.value|
    ensures Wrote(a, c, off, whole, None)
  {
    KeptOn(a, b, c, off, done);
  }

  /**
   * The response in the caller's buffer: it succeeds exactly when every answer can be written and
   * the whole fits, returns its length, and leaves the bytes behind it alone.
   */
  method BuildResponse(pton: Pton, q: Query, rcode: int, answers: seq<Answer>, out: array<Byte>, recursive: bool)
    returns (n: int)
    requires q.Ok() && forall i :: 0 <= i < |answers| ==> answers[i].Ok()
    modifies out
    ensures var bytes := ResponseBytes(pton, q, rcode, answers, recursive);
      && (n >= 0 <==> bytes.Some? && |bytes.value| <= out.Length)
      && (n >= 0 ==> n == |bytes.value| && Written(old(out[..]), out[..], 0, bytes.value))
      && (n < 0 ==> n == -1)
  {
    hide Written, AllAnswers, Header, KeptBefore;
    if out.Length < HeaderLength { return -1; }
    if |q.question| > out.Length - HeaderLength { return -1; }
    ghost var start := out[..];
    ghost var head, body := Header(q, rcode, |answers|, recursive), AllAnswers(pton, answers);
    PutHeader(q, rcode, |answers|, recursive, out);
    ghost var headed := out[..];
    Put(out, HeaderLength, q.question);
    ghost var asked := out[..];
    var end := AppendAnswers(pton, answers, out, HeaderLength + |q.question|);
    WroteAfter(headed, asked, out[..], HeaderLength, q.question, body, end);
    WroteAfter(start, headed, out[..], 0, head, if body.Some? then Some(q.question + body.value) else None, end);
    if end.None? { return -1; }
    return end.value;
  }

  lemma AllStep(pton: Pton, answers: seq<Answer>, i: nat, done: seq<Byte>)
    requires i < |answers| && Continues(AllAnswers(pton, answers), done, AllAnswers(pton, answers[i..]))
    ensures AnswerBytes(pton, answers[i]).None? ==> AllAnswers(pton, answers).None?
    ensures AnswerBytes(pton, answers[i]).Some? ==>
      && Continues(AllAnswers(pton, answers), done + AnswerBytes(pton, answers[i]).value, AllAnswers(pton, answers[i + 1..]))
      && (AllAnswers(pton, answers).Some? ==> |AllAnswers(pton, answers).value| >= |done| + |AnswerBytes(pton, answers[i]).value|)
  {
    hide AnswerBytes;
    assert answers[i..][0] == answers[i] && answers[i..][1..] == answers[i + 1..];
    var more := AllAnswers(pton, answers[i + 1..]);
    if AnswerBytes(pton, answers[i]).Some? && more.Some? {
      var first := AnswerBytes(pton, answers[i]).value;
      assert done + (first + more.value) == done + first + more.value;
    }
  }

  method PutHeader(q: Query, rcode: int, count: nat, recursive: bool, out: array<Byte>)
    requires q.Ok() && out.Length >= HeaderLength
    modifies out
    ensures Written(old(out[..]), out[..], 0, Header(q, rcode, count, recursive))
  {
    var flags := ResponseFlags(q.flags, rcode, recursive);
    TwoBytes(q.id);
    TwoBytes(flags);
    TwoBytes(count);
    Put(out, 0, [q.id / 256 % 256, q.id % 256] + [flags / 256 % 256, flags % 256] + [0, 1]
                + [count / 256 % 256, count % 256] + [0, 0, 0, 0]);
  }

  // ---- reading, after sections 3.1, 3.2.1 and 4.1 of RFC 1035 ----

  type Labels = seq<seq<Byte>>

  datatype Record = Record(owner: Labels, rtype: nat, class_: nat, ttl: nat, rdata: seq<Byte>)

  datatype Response = Response(id: nat, flags: nat, question: seq<Byte>, answers: seq<Record>)

  function ReadLabels(s: seq<Byte>): (r: Option<(Labels, seq<Byte>)>)
    ensures r.Some? ==> |r.value.1| < |s|
    decreases |s|
  {
    if s == [] then None
    else if s[0] == 0 then Some(([], s[1..]))
    else if s[0] > LabelMax || |s| < 1 + s[0] then None
    else
      match ReadLabels(s[1 + s[0]..])
      case None => None
      case Some((more, rest)) => Some(([s[1..1 + s[0]]] + more, rest))
  }

  function ReadRecord(s: seq<Byte>): (r: Option<(Record, seq<Byte>)>) {
    match ReadLabels(s)
    case None => None
    case Some((owner, t)) =>
      if |t| < 10 || |t| < 10 + Number(t[8..10]) then None
      else
        var end := 10 + Number(t[8..10]);
        Some((Record(owner, Number(t[..2]), Number(t[2..4]), Number(t[4..8]), t[10..end]), t[end..]))
  }

  function ReadRecords(s: seq<Byte>, count: nat): (r: Option<(seq<Record>, seq<Byte>)>)
    decreases count
  {
    if count == 0 then Some(([], s))
    else
      match ReadRecord(s)
      case None => None
      case Some((first, t)) =>
        match ReadRecords(t, count - 1)
        case None => None
        case Some((more, rest)) => Some(([first] + more, rest))
  }

  /** A message of one question and answers only, with nothing left over. */
  function ReadResponse(s: seq<Byte>): (r: Option<Response>) {
    if |s| < HeaderLength || Number(s[4..6]) != 1 || Number(s[8..10]) != 0 || Number(s[10..12]) != 0 then None
    else
      match ReadLabels(s[HeaderLength..])
      case None => None
      case Some((_, t)) =>
        if |t| < 4 then None
        else
          match ReadRecords(t[4..], Number(s[6..8]))
          case None => None
          case Some((records, rest)) =>
            if rest != [] then None
            else Some(Response(Number(s[0..2]), Number(s[2..4]), s[HeaderLength..|s| - |t| + 4], records))
  }

  function LabelsOf(name: Name): (ls: Labels)
    requires Encoded(name).Some?
    decreases |name|
  {
    if name == [] then [] else [name[..FirstLabel(name)]] + LabelsOf(AfterLabel(name))
  }

  function RecordOf(pton: Pton, a: Answer): (r: Record)
    requires AnswerBytes(pton, a).Some?
  {
    Record(LabelsOf(a.owner), a.rtype, 1, a.ttl, RdataOf(pton, a).value)
  }

  lemma ReadRoot(rest: seq<Byte>)
    ensures ReadLabels([0] + rest) == Some(([], rest))
  {
  }

  lemma ReadLabel(part: seq<Byte>, after: seq<Byte>)
    requires 0 < |part| <= LabelMax && ReadLabels(after).Some?
    ensures ReadLabels([|part|] + part + after) == Some(([part] + ReadLabels(after).value.0, ReadLabels(after).value.1))
  {
    var s := [|part|] + part + after;
    assert s[1..1 + |part|] == part && s[1 + |part|..] == after;
  }

  lemma {:induction false} LabelsReadBack(name: Name, rest: seq<Byte>)
    requires Encoded(name).Some?
    ensures ReadLabels(Encoded(name).value + rest) == Some((LabelsOf(name), rest))
    decreases |name|
  {
    hide FirstLabel, ReadLabels;
    if name == [] {
      ReadRoot(rest);
    } else {
      var n, e := FirstLabel(name), Encoded(AfterLabel(name)).value;
      LabelsReadBack(AfterLabel(name), rest);
      assert Encoded(name).value + rest == [n] + name[..n] + (e + rest);
      ReadLabel(name[..n], e + rest);
    }
  }

  lemma RecordReadBack(pton: Pton, a: Answer, rest: seq<Byte>)
    requires a.Ok() && AnswerBytes(pton, a).Some? && |RdataOf(pton, a).value| < 65536
    ensures ReadRecord(AnswerBytes(pton, a).value + rest) == Some((RecordOf(pton, a), rest))
  {
    hide Encoded, RdataOf, ReadLabels, LabelsOf, BigEndian, Number, Pow256;
    var e, data := Encoded(a.owner).value, RdataOf(pton, a).value;
    var size := BigEndian(|data|, 2);
    var t := BigEndian(a.rtype, 2) + [0, 1] + BigEndian(a.ttl, 4) + size + data + rest;
    assert AnswerBytes(pton, a).value + rest == e + t;
    LabelsReadBack(a.owner, t);
    Widths();
    NumberOfBigEndian(a.rtype, 2);
    NumberOfBigEndian(a.ttl, 4);
    NumberOfBigEndian(|data|, 2);
    assert t[..2] == BigEndian(a.rtype, 2) && t[2..4] == [0, 1] && t[4..8] == BigEndian(a.ttl, 4) && t[8..10] == size;
    assert t[10..10 + |data|] == data && t[10 + |data|..] == rest;
  }

  lemma Widths()
    ensures Pow256(2) == 65536 && Pow256(4) == 0x1_0000_0000 && Number([0, 1]) == 1 && Number([0, 0]) == 0
  {
    assert Pow256(3) == 256 * Pow256(2);
    assert [0, 1][..1] == [0] && [0, 0][..1] == [0];
    assert Number([0]) == 0;
  }

  function RecordsOf(pton: Pton, answers: seq<Answer>): (rs: seq<Record>)
    requires forall i :: 0 <= i < |answers| ==> AnswerBytes(pton, answers[i]).Some?
  {
    seq(|answers|, i requires 0 <= i < |answers| => RecordOf(pton, answers[i]))
  }

  /** All answers are written only if each is, and together they are at least as long as each, and as many. */
  lemma {:induction false} AllMeansEach(pton: Pton, answers: seq<Answer>)
    requires AllAnswers(pton, answers).Some?
    ensures forall i :: 0 <= i < |answers| ==>
      AnswerBytes(pton, answers[i]).Some? && |RdataOf(pton, answers[i]).value| < |AllAnswers(pton, answers).value|
    ensures |answers| <= |AllAnswers(pton, answers).value|
  {
    hide Encoded, RdataOf, BigEndian;
    if answers != [] {
      AllMeansEach(pton, answers[1..]);
      assert forall i :: 0 < i < |answers| ==> answers[i] == answers[1..][i - 1];
    }
  }

  lemma {:induction false} RecordsReadBack(pton: Pton, answers: seq<Answer>, rest: seq<Byte>)
    requires AllAnswers(pton, answers).Some? && |AllAnswers(pton, answers).value| < 65536
    requires forall i :: 0 <= i < |answers| ==> answers[i].Ok()
    ensures forall i :: 0 <= i < |answers| ==> AnswerBytes(pton, answers[i]).Some?
    ensures ReadRecords(AllAnswers(pton, answers).value + rest, |answers|) == Some((RecordsOf(pton, answers), rest))
  {
    hide AnswerBytes, RdataOf, ReadRecord, RecordOf;
    AllMeansEach(pton, answers);
    if answers == [] {
      assert [] + rest == rest && RecordsOf(pton, answers) == [];
    } else {
      var first, more := AnswerBytes(pton, answers[0]).value, AllAnswers(pton, answers[1..]).value;
      assert first + more + rest == first + (more + rest);
      RecordReadBack(pton, answers[0], more + rest);
      RecordsReadBack(pton, answers[1..], rest);
      assert RecordsOf(pton, answers) == [RecordOf(pton, answers[0])] + RecordsOf(pton, answers[1..]);
    }
  }

  lemma UsedLabel(s: seq<Byte>, l: nat, rest: nat, t: seq<Byte>)
    requires s != [] && s[0] == l && 1 + l + rest <= |s|
    ensures s[..|s| - rest] + t == [l] + s[1..1 + l] + (s[1 + l..][..|s| - 1 - l - rest] + t)
  {
  }

  /** A name the parser accepts is a label sequence, whatever follows it. */
  lemma {:induction false} AcceptedNameIsLabels(s: seq<Byte>, name: Name, t: seq<Byte>)
    requires ReadName(s, name).Some?
    ensures var used := s[..|s| - |ReadName(s, name).value.1|];
      ReadLabels(used + t).Some? && ReadLabels(used + t).value.1 == t
    decreases |s|
  {
    hide Dotted, Lower, ReadLabels;
    var rest := ReadName(s, name).value.1;
    if s[0] == 0 {
      assert s[..|s| - |rest|] == [0];
      ReadRoot(t);
    } else {
      var l: int := s[0];
      var part, next := s[1..1 + l], s[1 + l..];
      AcceptedNameIsLabels(next, Dotted(name, Lower(part)), t);
      var after := next[..|next| - |rest|] + t;
      UsedLabel(s, l, |rest|, t);
      ReadLabel(part, after);
    }
  }

  /** What the parser kept as the question is a name and four more octets. */
  lemma QuestionReadsBack(buf: seq<Byte>, t: seq<Byte>)
    requires ParsedQuery(buf).Parsed?
    ensures var q := ParsedQuery(buf).query.question;
      |q| >= 4 && ReadLabels(q + t).Some? && ReadLabels(q + t).value.1 == q[|q| - 4..] + t
  {
    hide ReadName, ReadLabels;
    var body := buf[HeaderLength..];
    var rest := ReadName(body, []).value.1;
    var q := ParsedQuery(buf).query.question;
    var used := body[..|body| - |rest|];
    assert q == used + q[|q| - 4..];
    AcceptedNameIsLabels(body, [], q[|q| - 4..] + t);
    assert q + t == used + (q[|q| - 4..] + t);
  }

  lemma HeaderReadsBack(q: Query, rcode: int, count: nat, recursive: bool, t: seq<Byte>)
    requires q.Ok() && count < 65536
    ensures var s := Header(q, rcode, count, recursive) + t;
      && Number(s[0..2]) == q.id && Number(s[2..4]) == ResponseFlags(q.flags, rcode, recursive)
      && Number(s[4..6]) == 1 && Number(s[6..8]) == count && Number(s[8..10]) == 0 && Number(s[10..12]) == 0
  {
    hide BigEndian, Number, Pow256, ResponseFlags;
    var s := Header(q, rcode, count, recursive) + t;
    var flags := ResponseFlags(q.flags, rcode, recursive);
    Widths();
    NumberOfBigEndian(q.id, 2);
    NumberOfBigEndian(flags, 2);
    NumberOfBigEndian(count, 2);
    assert s[0..2] == BigEndian(q.id, 2) && s[2..4] == BigEndian(flags, 2) && s[4..6] == [0, 1];
    assert s[6..8] == BigEndian(count, 2) && s[8..10] == [0, 0] && s[10..12] == [0, 0];
  }

  /**
   * The answer to any accepted query, in any message of at most 65535 octets, reads back as the
   * query's id and question and exactly the given records, each data field of its full length.
   */
  lemma ResponseReadsBack(pton: Pton, buf: seq<Byte>, rcode: int, answers: seq<Answer>, recursive: bool)
    requires ParsedQuery(buf).Parsed? && forall i :: 0 <= i < |answers| ==> answers[i].Ok()
    requires var bytes := ResponseBytes(pton, ParsedQuery(buf).query, rcode, answers, recursive);
      bytes.Some? && |bytes.value| < 65536
    ensures forall i :: 0 <= i < |answers| ==> AnswerBytes(pton, answers[i]).Some?
    ensures var q := ParsedQuery(buf).query;
      ReadResponse(ResponseBytes(pton, q, rcode, answers, recursive).value) ==
      Some(Response(q.id, ResponseFlags(q.flags, rcode, recursive), q.question, RecordsOf(pton, answers)))
  {
    hide ParsedQuery, AllAnswers, Header, ReadLabels, ReadRecords, ResponseFlags, Number, AnswerBytes, RecordOf;
    var q, body := ParsedQuery(buf).query, AllAnswers(pton, answers).value;
    AllMeansEach(pton, answers);
    QuestionReadsBack(buf, body);
    HeaderReadsBack(q, rcode, |answers|, recursive, q.question + body);
    RecordsReadBack(pton, answers, []);
    var s := Header(q, rcode, |answers|, recursive) + (q.question + body);
    assert s[HeaderLength..] == q.question + body;
    var t := q.question[|q.question| - 4..] + body;
    assert t[4..] == body && body + [] == body;
    assert s[HeaderLength..|s| - |t| + 4] == q.question;
  }

  /** The flags of a response: QR and AA set, the opcode echoed, RA as asked, the code's four bits. */
  lemma ResponseFlagBits(flags: nat, rcode: int, recursive: bool)
    requires flags < 65536
    ensures var f := ResponseFlags(flags, rcode, recursive);
      && f / 0x8000 == 1 && f / 0x0400 % 2 == 1 && f / 0x0800 % 16 == flags / 0x0800 % 16
      && (f / 0x0080 % 2 == 1 <==> recursive) && f % 16 == rcode % 16
  {
    var op, code := flags / 0x0800 % 16, rcode % 16;
    var f := ResponseFlags(flags, rcode, recursive);
    assert f == 0x0800 * (16 + op) + (0x0400 + (if recursive then 0x0080 else 0) + code);
    assert f / 0x0800 == 16 + op;
    assert f % 0x0800 == 0x0400 + (if recursive then 0x0080 else 0) + code;
  }
}
