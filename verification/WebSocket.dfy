/**
 * The client side of RFC 6455 framing: frames written with a random mask, and messages read from
 * a socket that hands over bytes in chunks of any size.
 */
module WebSocket {
  import opened Options
  import opened Bytes
  import opened Utf8

  const Continuation := 0
  const TextFrame := 1
  const Binary := 2
  const Close := 8
  const Ping := 9
  const Pong := 10

  datatype Frame = Frame(fin: bool, opcode: nat, payload: seq<Byte>)

  /** The payload under a four-byte mask; applying it twice gives the payload back. */
  function Masked(payload: seq<Byte>, mask: seq<Byte>): (r: seq<Byte>)
    requires |mask| == 4
    ensures |r| == |payload|
  {
    seq(|payload|, i requires 0 <= i < |payload| => Xor(payload[i], mask[i % 4]))
  }

  lemma MaskedTwice(payload: seq<Byte>, mask: seq<Byte>)
    requires |mask| == 4
    ensures Masked(Masked(payload, mask), mask) == payload
  {
    hide Xor;
    forall i | 0 <= i < |payload|
      ensures Masked(Masked(payload, mask), mask)[i] == payload[i]
    {
      XorUndoes(payload[i], mask[i % 4]);
    }
  }

  // ---- the wire format ----

  predicate Encodable(f: Frame) {
    f.opcode < 16 && |f.payload| < Pow256(8)
  }

  /** The shortest of the three length forms, after the mask bit. */
  function LengthField(n: nat, maskBit: nat): (s: seq<Byte>)
    requires n < Pow256(8) && maskBit in {0, 128}
  {
    if n < 126 then [maskBit + n]
    else if n < 65536 then [maskBit + 126] + BigEndian(n, 2)
    else [maskBit + 127] + BigEndian(n, 8)
  }

  /** A frame as section 5.2 of RFC 6455 lays it out, with or without a mask. */
  function Wire(f: Frame, mask: Option<seq<Byte>>): (s: seq<Byte>)
    requires Encodable(f) && (mask.Some? ==> |mask.value| == 4)
  {
    [(if f.fin then 128 else 0) + f.opcode] + LengthField(|f.payload|, if mask.Some? then 128 else 0)
    + if mask.Some? then mask.value + Masked(f.payload, mask.value) else f.payload
  }

  /** The first `n` bytes of a stream and the others, once enough are there. */
  function Take(s: seq<Byte>, n: nat): (r: Option<(seq<Byte>, seq<Byte>)>)
    ensures r.Some? <==> n <= |s|
    ensures r.Some? ==> |r.value.0| == n && |r.value.1| + n == |s|
  {
    if |s| < n then None else Some((s[..n], s[n..]))
  }

  lemma TakeFront(a: seq<Byte>, b: seq<Byte>)
    ensures Take(a + b, |a|) == Some((a, b))
  {
  }

  lemma TakeNothing(s: seq<Byte>)
    ensures Take(s, 0) == Some(([], s))
  {
  }

  /** How many bytes of extended length follow a seven-bit length. */
  function WidthOf(n: nat): (wide: nat) {
    if n == 126 then 2 else if n == 127 then 8 else 0
  }

  /** The first frame of a byte stream and what follows it, once enough bytes are there. */
  function ParseFrame(s: seq<Byte>): (r: Option<(Frame, seq<Byte>)>)
    ensures r.Some? ==> |r.value.1| + 2 <= |s| && r.value.0.opcode < 16
  {
    match Take(s, 2)
    case None => None
    case Some((head, s1)) =>
      match Take(s1, WidthOf(head[1] % 128))
      case None => None
      case Some((field, s2)) =>
        match Take(s2, if head[1] >= 128 then 4 else 0)
        case None => None
        case Some((mask, s3)) =>
          match Take(s3, if field == [] then head[1] % 128 else Number(field))
          case None => None
          case Some((raw, s4)) =>
            Some((Frame(head[0] >= 128, head[0] % 16, if mask == [] then raw else Masked(raw, mask)), s4))
  }

  lemma LengthForms()
    ensures Pow256(2) == 65536
  {
  }

  /** The length field reads back in all three forms. */
  lemma LengthRoundTrip(n: nat, maskBit: nat)
    requires n < Pow256(8) && maskBit in {0, 128}
    ensures var s := LengthField(n, maskBit);
      var wide := WidthOf(s[0] % 128);
      && |s| == 1 + wide && (s[0] >= 128 <==> maskBit == 128)
      && n == if wide == 0 then s[0] % 128 else Number(s[1..])
  {
    hide Pow256, BigEndian, Number;
    LengthForms();
    if 126 <= n < 65536 {
      NumberOfBigEndian(n, 2);
      assert LengthField(n, maskBit)[1..] == BigEndian(n, 2);
    } else if 65536 <= n {
      NumberOfBigEndian(n, 8);
      assert LengthField(n, maskBit)[1..] == BigEndian(n, 8);
    }
  }

  /** Whatever its length, its mask and the bytes behind it, a written frame is read back. */
  lemma FrameRoundTrip(f: Frame, mask: Option<seq<Byte>>, rest: seq<Byte>)
    requires Encodable(f) && (mask.Some? ==> |mask.value| == 4)
    ensures ParseFrame(Wire(f, mask) + rest) == Some((f, rest))
  {
    hide Pow256, Number, Masked, LengthField, Wire, ParseFrame;
    var n, bit := |f.payload|, if mask.Some? then 128 else 0;
    var len := LengthField(n, bit);
    LengthRoundTrip(n, bit);
    var b0 := (if f.fin then 128 else 0) + f.opcode;
    var key := if mask.Some? then mask.value else [];
    var body := if mask.Some? then Masked(f.payload, mask.value) else f.payload;
    WireLayout(f, mask, rest);
    ParseLayout([b0, len[0]], len[1..], key, body, rest);
    if mask.Some? { MaskedTwice(f.payload, mask.value); }
  }

  lemma WireLayout(f: Frame, mask: Option<seq<Byte>>, rest: seq<Byte>)
    requires Encodable(f) && (mask.Some? ==> |mask.value| == 4)
    ensures var len := LengthField(|f.payload|, if mask.Some? then 128 else 0);
      var key := if mask.Some? then mask.value else [];
      var body := if mask.Some? then Masked(f.payload, mask.value) else f.payload;
      Wire(f, mask) + rest == [(if f.fin then 128 else 0) + f.opcode, len[0]] + (len[1..] + (key + (body + rest)))
  {
    hide Pow256, Masked, BigEndian;
    var len := LengthField(|f.payload|, if mask.Some? then 128 else 0);
    assert len == [len[0]] + len[1..];
  }

  lemma ParseLayout(head: seq<Byte>, field: seq<Byte>, key: seq<Byte>, body: seq<Byte>, rest: seq<Byte>)
    requires |head| == 2 && |field| == WidthOf(head[1] % 128) && |key| == if head[1] >= 128 then 4 else 0
    requires |body| == if field == [] then head[1] % 128 else Number(field)
    ensures ParseFrame(head + (field + (key + (body + rest)))) ==
      Some((Frame(head[0] >= 128, head[0] % 16, if key == [] then body else Masked(body, key)), rest))
  {
    hide Number, Masked, Take;
    TakeFront(head, field + (key + (body + rest)));
    TakeFront(field, key + (body + rest));
    TakeFront(key, body + rest);
    TakeFront(body, rest);
  }

  // ---- messages ----

  /** A frame the client answers with. */
  datatype Reply = Reply(opcode: nat, payload: seq<Byte>)

  datatype Received =
    | Text(message: seq<Scalar>)
    | NotText
    | ServerClosed(reason: seq<Byte>)
    | UnexpectedBinary
    | ConnectionLost

  /** What a receive returns, the frames it sends meanwhile, and what it leaves after a message. */
  datatype Outcome = Outcome(result: Received, replies: seq<Reply>, rest: seq<Byte>)

  function CloseCode(payload: seq<Byte>): (r: seq<Byte>) {
    if |payload| <= 2 then payload else payload[..2]
  }

  function CloseReason(payload: seq<Byte>): (r: seq<Byte>) {
    if |payload| <= 2 then [] else payload[2..]
  }

  /** The octets of a message as text, if they are UTF-8. */
  function Delivered(data: seq<Byte>): (r: Received) {
    match Decode(data)
    case None => NotText
    case Some(message) => Text(message)
  }

  /** Receiving as a function of the bytes alone: `parts` are the fragments so far, joined. */
  function Receive(s: seq<Byte>, parts: seq<Byte>, replies: seq<Reply>): (o: Outcome)
    decreases |s|
  {
    match ParseFrame(s)
    case None => Outcome(ConnectionLost, replies, [])
    case Some((f, rest)) =>
      if f.opcode == Ping then Receive(rest, parts, replies + [Reply(Pong, f.payload)])
      else if f.opcode == Close then
        Outcome(ServerClosed(CloseReason(f.payload)), replies + [Reply(Close, CloseCode(f.payload))], [])
      else if f.opcode == TextFrame || f.opcode == Continuation then
        if f.fin then Outcome(Delivered(parts + f.payload), replies, rest) else Receive(rest, parts + f.payload, replies)
      else if f.opcode == Binary then Outcome(UnexpectedBinary, replies, [])
      else Receive(rest, parts, replies)
  }

  /** A socket's incoming chunks and outgoing bytes, and the read buffer of the client. */
  class Client {
    var buf: seq<Byte>
    var chunks: seq<seq<Byte>>
    var sent: seq<Byte>
    ghost var replies: seq<Reply>
    ghost var masks: seq<seq<Byte>>

    ghost predicate Valid()
      reads this
    {
      NoneEmpty(chunks) && SentIs(sent, replies, masks)
    }

    /** Everything the server has sent that the client has not consumed. */
    ghost function Stream(): (s: seq<Byte>)
      reads this
    {
      buf + Flat(chunks)
    }

    /** Nothing received means that the server has closed. */
    method ReceiveChunk() returns (chunk: seq<Byte>)
      requires Valid()
      modifies this`chunks
      ensures Valid()
      ensures chunk == [] ==> old(chunks) == []
      ensures if old(chunks) == [] then chunk == [] && chunks == [] else [chunk] + chunks == old(chunks)
    {
      if chunks == [] { return []; }
      hide SentIs;
      chunk := chunks[0];
      chunks := chunks[1..];
    }

    /** Exactly `n` bytes, however they were cut up, or none when the stream ends too soon. */
    method Read(n: nat) returns (r: Option<seq<Byte>>)
      requires Valid()
      modifies this`buf, this`chunks
      ensures Valid()
      ensures match Take(old(Stream()), n)
        case None => r == None
        case Some((front, back)) => r == Some(front) && Stream() == back
    {
      hide SentIs, Flat;
      FlatEmpty();
      while |buf| < n
        invariant Valid() && Stream() == old(Stream())
        decreases |chunks|
      {
        var chunk := ReceiveChunk();
        if chunk == [] {
          return None;
        }
        FlatCons(chunk, chunks);
        assert buf + (chunk + Flat(chunks)) == (buf + chunk) + Flat(chunks);
        buf := buf + chunk;
      }
      r := Some(buf[..n]);
      assert (buf + Flat(chunks))[..n] == buf[..n];
      assert (buf + Flat(chunks))[n..] == buf[n..] + Flat(chunks);
      buf := buf[n..];
    }

    method RandomMask() returns (m: seq<Byte>)
      ensures |m| == 4
    {
      var zeros: seq<Byte> := [0, 0, 0, 0];
      assert |zeros| == 4;
      m :| |m| == 4;
    }

    method SendFrame(opcode: nat, payload: seq<Byte>)
      requires Valid() && Encodable(Frame(true, opcode, payload))
      modifies this`sent, this`replies, this`masks
      ensures Valid() && replies == old(replies) + [Reply(opcode, payload)] && Stream() == old(Stream())
      ensures exists mask: seq<Byte> :: |mask| == 4 && sent == old(sent) + Wire(Frame(true, opcode, payload), Some(mask))
    {
      hide SentIs, Wire, Masked, BigEndian, Pow256;
      var mask := RandomMask();
      var n := |payload|;
      var hdr: seq<Byte> := [128 + opcode];
      if n < 126 {
        hdr := hdr + [128 + n];
      } else if n < 65536 {
        hdr := hdr + [128 + 126] + BigEndian(n, 2);
      } else {
        hdr := hdr + [128 + 127] + BigEndian(n, 8);
      }
      var frame := hdr + mask + Masked(payload, mask);
      HeaderIsWire(opcode, payload, mask, hdr);
      SentAppend(sent, replies, masks, Reply(opcode, payload), mask);
      sent := sent + frame;
      replies := replies + [Reply(opcode, payload)];
      masks := masks + [mask];
    }

    method SendText(message: seq<Scalar>)
      requires Valid() && Encodable(Frame(true, TextFrame, Encode(message)))
      modifies this`sent, this`replies, this`masks
      ensures Valid() && replies == old(replies) + [Reply(TextFrame, Encode(message))] && Stream() == old(Stream())
    {
      hide SentIs, Encode, Wire, Encodable, Stream;
      SendFrame(TextFrame, Encode(message));
    }

    /** The next whole frame, unmasked; none when the stream ends before it does. */
    method ReadFrame() returns (r: Option<Frame>)
      requires Valid()
      modifies this`buf, this`chunks
      ensures Valid()
      ensures match ParseFrame(old(Stream()))
        case None => r == None
        case Some((f, rest)) => r == Some(f) && Stream() == rest
    {
      hide SentIs, Masked, Number, Stream, Take;
      ghost var s := Stream();
      var head := Read(2);
      if head.None? { return None; }
      var n := head.value[1] % 128;
      var field: seq<Byte> := [];
      TakeNothing(Stream());
      if WidthOf(n) > 0 {
        var extended := Read(WidthOf(n));
        if extended.None? { return None; }
        field := extended.value;
        n := Number(field);
      }
      var mask: seq<Byte> := [];
      TakeNothing(Stream());
      if head.value[1] >= 128 {
        var key := Read(4);
        if key.None? { return None; }
        mask := key.value;
      }
      var raw := Read(n);
      if raw.None? { return None; }
      r := Some(Frame(head.value[0] >= 128, head.value[0] % 16, if mask != [] then Masked(raw.value, mask) else raw.value));
    }

    /** The next text message, with pings and a close answered on the way. */
    method ReceiveText() returns (r: Received)
      requires Valid()
      modifies this
      ensures Valid()
      ensures var o := Receive(old(Stream()), [], []);
        r == o.result && replies == old(replies) + o.replies && (r.Text? || r.NotText? ==> Stream() == o.rest)
    {
      hide SentIs, ParseFrame, Stream, Flat, Encodable, Decode;
      ghost var start := Stream();
      ghost var more: seq<Reply> := [];
      var fragments: seq<seq<Byte>> := [];
      FlatEmpty();
      while true
        invariant Valid() && replies == old(replies) + more
        invariant Receive(start, [], []) == Receive(Stream(), Flat(fragments), more)
        decreases |Stream()|
      {
        ghost var s := Stream();
        var frame := ReadFrame();
        if frame.None? { return ConnectionLost; }
        var f := frame.value;
        ParsedIsEncodable(s);
        if f.opcode == Ping {
          SendFrame(Pong, f.payload);
          more := more + [Reply(Pong, f.payload)];
        } else if f.opcode == Pong {
        } else if f.opcode == Close {
          SendFrame(Close, CloseCode(f.payload));
          more := more + [Reply(Close, CloseCode(f.payload))];
          return ServerClosed(CloseReason(f.payload));
        } else if f.opcode == TextFrame || f.opcode == Continuation {
          FlatAppend(fragments, f.payload);
          fragments := fragments + [f.payload];
          if f.fin { return Delivered(Flat(fragments)); }
        } else if f.opcode == Binary {
          return UnexpectedBinary;
        }
      }
    }
  }

  predicate NoneEmpty(chunks: seq<seq<Byte>>) {
    forall i :: 0 <= i < |chunks| ==> chunks[i] != []
  }

  predicate Sendable(replies: seq<Reply>, masks: seq<seq<Byte>>) {
    && |masks| == |replies|
    && forall i :: 0 <= i < |replies| ==> |masks[i]| == 4 && Encodable(Frame(true, replies[i].opcode, replies[i].payload))
  }

  ghost predicate SentIs(sent: seq<Byte>, replies: seq<Reply>, masks: seq<seq<Byte>>) {
    Sendable(replies, masks) && sent == WireAll(replies, masks)
  }

  lemma HeaderIsWire(opcode: nat, payload: seq<Byte>, mask: seq<Byte>, hdr: seq<Byte>)
    requires Encodable(Frame(true, opcode, payload)) && |mask| == 4
    requires hdr == [128 + opcode] + LengthField(|payload|, 128)
    ensures hdr + mask + Masked(payload, mask) == Wire(Frame(true, opcode, payload), Some(mask))
  {
    hide LengthField, Masked, Pow256;
  }

  lemma SentAppend(sent: seq<Byte>, replies: seq<Reply>, masks: seq<seq<Byte>>, r: Reply, mask: seq<Byte>)
    requires SentIs(sent, replies, masks) && |mask| == 4 && Encodable(Frame(true, r.opcode, r.payload))
    ensures SentIs(sent + Wire(Frame(true, r.opcode, r.payload), Some(mask)), replies + [r], masks + [mask])
  {
    hide Encodable, Wire, WireAll;
    WireAllAppend(replies, masks, r, mask);
  }

  lemma FlatEmpty()
    ensures Flat([]) == []
  {
  }

  function Flat(chunks: seq<seq<Byte>>): (s: seq<Byte>) {
    if chunks == [] then [] else chunks[0] + Flat(chunks[1..])
  }

  lemma FlatCons(c: seq<Byte>, cs: seq<seq<Byte>>)
    ensures Flat([c] + cs) == c + Flat(cs)
  {
    assert ([c] + cs)[1..] == cs;
  }

  lemma {:induction false} FlatAppend(cs: seq<seq<Byte>>, c: seq<Byte>)
    ensures Flat(cs + [c]) == Flat(cs) + c
  {
    if cs == [] {
      assert [c][1..] == [];
    } else {
      FlatAppend(cs[1..], c);
      assert (cs + [c])[1..] == cs[1..] + [c];
    }
  }

  /** A frame read from a stream can be sent back: pongs and closes always have a length form. */
  lemma ParsedIsEncodable(s: seq<Byte>)
    requires ParseFrame(s).Some?
    ensures var f := ParseFrame(s).value.0;
      forall op, p :: op < 16 && |p| <= |f.payload| ==> Encodable(Frame(true, op, p))
  {
    hide Number, Masked, Pow256, Take;
    WideForms();
    var (head, s1) := Take(s, 2).value;
    var (field, s2) := Take(s1, WidthOf(head[1] % 128)).value;
    NumberBound(field);
  }

  lemma WideForms()
    ensures Pow256(0) == 1 && Pow256(2) == 65536 < Pow256(8)
  {
    assert Pow256(4) > 65536;
  }

  ghost function WireAll(replies: seq<Reply>, masks: seq<seq<Byte>>): (s: seq<Byte>)
    requires Sendable(replies, masks)
  {
    if replies == [] then []
    else
      var k := |replies| - 1;
      WireAll(replies[..k], masks[..k]) + Wire(Frame(true, replies[k].opcode, replies[k].payload), Some(masks[k]))
  }

  lemma WireAllAppend(replies: seq<Reply>, masks: seq<seq<Byte>>, r: Reply, mask: seq<Byte>)
    requires Sendable(replies, masks) && |mask| == 4 && Encodable(Frame(true, r.opcode, r.payload))
    ensures Sendable(replies + [r], masks + [mask])
    ensures WireAll(replies + [r], masks + [mask]) == WireAll(replies, masks) + Wire(Frame(true, r.opcode, r.payload), Some(mask))
  {
    assert (replies + [r])[..|replies|] == replies && (masks + [mask])[..|masks|] == masks;
  }

  // ---- what a whole conversation comes to ----

  /** A frame as a peer sends it, masked or not. */
  datatype Sent = Sent(frame: Frame, mask: Option<seq<Byte>>) {
    predicate Ok() { Encodable(frame) && (mask.Some? ==> |mask.value| == 4) }
  }

  predicate AllOk(xs: seq<Sent>) {
    forall i :: 0 <= i < |xs| ==> xs[i].Ok()
  }

  function WireOf(xs: seq<Sent>): (s: seq<Byte>)
    requires AllOk(xs)
  {
    if xs == [] then [] else Wire(xs[0].frame, xs[0].mask) + WireOf(xs[1..])
  }

  predicate IsData(f: Frame) { f.opcode == TextFrame || f.opcode == Continuation }

  /** A frame after which the receiver goes on: an unfinished fragment, a ping, a pong or a reserved opcode. */
  predicate GoesOn(f: Frame) {
    (IsData(f) ==> !f.fin) && f.opcode != Close && f.opcode != Binary
  }

  predicate AllGoOn(xs: seq<Sent>) {
    AllOk(xs) && forall i :: 0 <= i < |xs| ==> GoesOn(xs[i].frame)
  }

  function DataIn(f: Frame): (s: seq<Byte>) { if IsData(f) then f.payload else [] }

  function PongsFor(f: Frame): (rs: seq<Reply>) { if f.opcode == Ping then [Reply(Pong, f.payload)] else [] }

  function DataOf(xs: seq<Sent>): (s: seq<Byte>) {
    if xs == [] then [] else DataIn(xs[0].frame) + DataOf(xs[1..])
  }

  /** One pong per ping, in order, with the ping's payload. */
  function PongsOf(xs: seq<Sent>): (rs: seq<Reply>) {
    if xs == [] then [] else PongsFor(xs[0].frame) + PongsOf(xs[1..])
  }

  lemma FrameAbsorbed(x: Sent, s: seq<Byte>, parts: seq<Byte>, replies: seq<Reply>)
    requires x.Ok() && GoesOn(x.frame)
    ensures Receive(Wire(x.frame, x.mask) + s, parts, replies) == Receive(s, parts + DataIn(x.frame), replies + PongsFor(x.frame))
  {
    hide Wire, ParseFrame, Encodable;
    FrameRoundTrip(x.frame, x.mask, s);
    assert parts + [] == parts && replies + [] == replies;
  }

  lemma {:induction false} PrefixAbsorbed(xs: seq<Sent>, s: seq<Byte>, parts: seq<Byte>, replies: seq<Reply>)
    requires AllGoOn(xs)
    ensures Receive(WireOf(xs) + s, parts, replies) == Receive(s, parts + DataOf(xs), replies + PongsOf(xs))
  {
    hide Wire, ParseFrame, Encodable, Receive, DataIn, PongsFor, GoesOn;
    if xs == [] {
      assert WireOf(xs) + s == s && parts + DataOf(xs) == parts && replies + PongsOf(xs) == replies;
    } else {
      var x, later := xs[0], xs[1..];
      var data, pongs := DataIn(x.frame), PongsFor(x.frame);
      assert WireOf(xs) + s == Wire(x.frame, x.mask) + (WireOf(later) + s);
      FrameAbsorbed(x, WireOf(later) + s, parts, replies);
      PrefixAbsorbed(later, s, parts + data, replies + pongs);
      assert parts + data + DataOf(later) == parts + DataOf(xs);
      assert replies + pongs + PongsOf(later) == replies + PongsOf(xs);
    }
  }

  /**
   * A text message in any number of fragments, with pings, pongs and reserved frames anywhere
   * between them: the result is the text of the joined fragments, each ping is answered once, and the bytes
   * behind the message are left for the next one.
   */
  lemma FragmentedMessage(xs: seq<Sent>, last: Sent, rest: seq<Byte>)
    requires AllGoOn(xs) && last.Ok() && IsData(last.frame) && last.frame.fin
    ensures Receive(WireOf(xs) + Wire(last.frame, last.mask) + rest, [], [])
         == Outcome(Delivered(DataOf(xs) + last.frame.payload), PongsOf(xs), rest)
  {
    hide Wire, ParseFrame, WireOf, DataOf, PongsOf, Encodable;
    var s := Wire(last.frame, last.mask) + rest;
    assert WireOf(xs) + Wire(last.frame, last.mask) + rest == WireOf(xs) + s;
    PrefixAbsorbed(xs, s, [], []);
    FrameRoundTrip(last.frame, last.mask, rest);
    assert [] + DataOf(xs) == DataOf(xs) && [] + PongsOf(xs) == PongsOf(xs);
  }

  /** A text is received exactly when the fragments together are its UTF-8 octets, wherever they were cut. */
  lemma TextArrivesIff(message: seq<Scalar>, xs: seq<Sent>, last: Sent, rest: seq<Byte>)
    requires AllGoOn(xs) && last.Ok() && IsData(last.frame) && last.frame.fin
    ensures Receive(WireOf(xs) + Wire(last.frame, last.mask) + rest, [], []).result == Text(message) <==>
      DataOf(xs) + last.frame.payload == Encode(message)
  {
    hide Wire, WireOf, DataOf, PongsOf, Encodable, Receive, Decode, Encode, AllGoOn, IsData;
    FragmentedMessage(xs, last, rest);
    var data := DataOf(xs) + last.frame.payload;
    TextRoundTrip(message);
    if Decode(data).Some? { OctetsRoundTrip(data); }
  }

  /** A close or a binary frame ends the receive with its error; a close is answered with its status code. */
  lemma InterruptedMessage(xs: seq<Sent>, last: Sent, rest: seq<Byte>)
    requires AllGoOn(xs) && last.Ok() && last.frame.opcode in {Close, Binary}
    ensures Receive(WireOf(xs) + Wire(last.frame, last.mask) + rest, [], []) ==
      if last.frame.opcode == Binary then Outcome(UnexpectedBinary, PongsOf(xs), [])
      else Outcome(ServerClosed(CloseReason(last.frame.payload)), PongsOf(xs) + [Reply(Close, CloseCode(last.frame.payload))], [])
  {
    hide Wire, ParseFrame, WireOf, DataOf, PongsOf, Encodable;
    var s := Wire(last.frame, last.mask) + rest;
    assert WireOf(xs) + Wire(last.frame, last.mask) + rest == WireOf(xs) + s;
    PrefixAbsorbed(xs, s, [], []);
    FrameRoundTrip(last.frame, last.mask, rest);
    assert [] + DataOf(xs) == DataOf(xs) && [] + PongsOf(xs) == PongsOf(xs);
  }

  /** A stream that ends inside a frame, or between two, loses the connection. */
  lemma CutOffMessage(xs: seq<Sent>, s: seq<Byte>)
    requires AllGoOn(xs) && ParseFrame(s).None?
    ensures Receive(WireOf(xs) + s, [], []) == Outcome(ConnectionLost, PongsOf(xs), [])
  {
    hide Wire, ParseFrame, WireOf, DataOf, PongsOf, Encodable;
    PrefixAbsorbed(xs, s, [], []);
    assert [] + DataOf(xs) == DataOf(xs) && [] + PongsOf(xs) == PongsOf(xs);
  }

  /** The frames in a byte string, as the other side reads them. */
  function ParseAll(s: seq<Byte>): (fs: seq<Frame>)
    decreases |s|
  {
    match ParseFrame(s)
    case None => []
    case Some((f, rest)) => [f] + ParseAll(rest)
  }

  function FramesOf(replies: seq<Reply>): (fs: seq<Frame>) {
    seq(|replies|, i requires 0 <= i < |replies| => Frame(true, replies[i].opcode, replies[i].payload))
  }

  lemma ParseAllCons(s: seq<Byte>)
    requires ParseFrame(s).Some?
    ensures ParseAll(s) == [ParseFrame(s).value.0] + ParseAll(ParseFrame(s).value.1)
  {
    hide ParseFrame;
  }

  lemma {:induction false} ParseAllAfter(replies: seq<Reply>, masks: seq<seq<Byte>>, rest: seq<Byte>)
    requires Sendable(replies, masks)
    ensures ParseAll(WireAll(replies, masks) + rest) == FramesOf(replies) + ParseAll(rest)
  {
    hide Wire, ParseFrame, Encodable, ParseAll;
    if replies == [] {
      assert WireAll(replies, masks) + rest == rest;
      assert FramesOf(replies) + ParseAll(rest) == ParseAll(rest);
    } else {
      var k := |replies| - 1;
      var f := Frame(true, replies[k].opcode, replies[k].payload);
      var tail := Wire(f, Some(masks[k])) + rest;
      assert WireAll(replies, masks) + rest == WireAll(replies[..k], masks[..k]) + tail;
      ParseAllAfter(replies[..k], masks[..k], tail);
      FrameRoundTrip(f, Some(masks[k]), rest);
      ParseAllCons(tail);
      assert FramesOf(replies) == FramesOf(replies[..k]) + [f];
      assert FramesOf(replies[..k]) + ([f] + ParseAll(rest)) == FramesOf(replies) + ParseAll(rest);
    }
  }

  /** What the client has sent reads back as exactly its replies, each a final frame, in order. */
  lemma SentReadsBack(sent: seq<Byte>, replies: seq<Reply>, masks: seq<seq<Byte>>)
    requires SentIs(sent, replies, masks)
    ensures ParseAll(sent) == FramesOf(replies)
  {
    hide Encodable, WireAll;
    ParseAllAfter(replies, masks, []);
    assert sent + [] == sent && FramesOf(replies) + ParseAll([]) == FramesOf(replies);
  }
}
