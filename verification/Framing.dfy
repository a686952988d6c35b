/** The wire format of the byte-stuffed serial protocol, as pure functions: what one frame
    looks like, and what a whole byte stream means to a receiver that sees all of it. */
module Framing {
  import opened Bytes
  import opened Options

  const ESCAPE: byte := 0x3c
  const BEGIN: byte := 0xf0
  const END: byte := 0x0f
  const MAX_PACKET_LEN: nat := 128

  datatype Packet = Packet(id: byte, payload: seq<byte>)

  predicate Special(b: byte) {
    b == BEGIN || b == END || b == ESCAPE
  }

  function EscapeByte(b: byte): seq<byte> {
    if Special(b) then [ESCAPE, b] else [b]
  }

  function Escape(s: seq<byte>): seq<byte> {
    if |s| == 0 then [] else Escape(s[..|s| - 1]) + EscapeByte(s[|s| - 1])
  }

  function Prepend(u: seq<byte>, o: Option<seq<byte>>): Option<seq<byte>> {
    match o
    case Some(v) => Some(u + v)
    case None => None
  }

  /** The inverse reading: `None` when a delimiter stands unescaped or an escape is cut off. */
  function Unescape(raw: seq<byte>): Option<seq<byte>> {
    if |raw| == 0 then Some([])
    else if raw[0] == ESCAPE then
      if |raw| < 2 then None else Prepend([raw[1]], Unescape(raw[2..]))
    else if Special(raw[0]) then None
    else Prepend([raw[0]], Unescape(raw[1..]))
  }

  /** The bytes that close a frame body whose bytes so far sum to `sum`. A check byte that
      needs an escape is computed again, because the escape byte is summed as well. */
  function CheckBytes(sum: byte): seq<byte> {
    if Special(Neg8(sum)) then [ESCAPE, Neg8(Add8(sum, ESCAPE))] else [Neg8(sum)]
  }

  function Stuffed(id: byte, payload: seq<byte>): seq<byte> {
    Escape([id] + payload)
  }

  function Body(id: byte, payload: seq<byte>): seq<byte> {
    Stuffed(id, payload) + CheckBytes(Sum8(Stuffed(id, payload)))
  }

  function Encode(id: byte, payload: seq<byte>): seq<byte> {
    [BEGIN] + Body(id, payload) + [END]
  }

  /** The meaning of one complete frame body: id, payload and one check byte, summing to 0. */
  function DecodeBody(body: seq<byte>): Option<Packet> {
    var u := Unescape(body);
    if u.None? || Sum8(body) != 0 || |u.value| < 2 || |u.value| >= MAX_PACKET_LEN then None
    else Some(Packet(u.value[0], u.value[1..|u.value| - 1]))
  }

  function Deliver(body: seq<byte>): seq<Packet> {
    match DecodeBody(body)
    case Some(p) => [p]
    case None => []
  }

  /** How many bytes the leading complete tokens of `x` take, counting at most `room` tokens. */
  function TokenSpan(x: seq<byte>, room: nat): (n: nat)
    ensures n <= |x|
  {
    if room == 0 || |x| == 0 then 0
    else if x[0] == ESCAPE then
      if |x| < 2 then 0 else 2 + TokenSpan(x[2..], room - 1)
    else if Special(x[0]) then 0
    else 1 + TokenSpan(x[1..], room - 1)
  }

  /** What a byte stream says, read frame by frame with the whole stream in hand: skip to a
      BEGIN, take the tokens that follow, and if they end at an END, judge them as a body. */
  function Decode(x: seq<byte>): seq<Packet>
    decreases |x|
  {
    if |x| == 0 then []
    else if x[0] != BEGIN then Decode(x[1..])
    else
      var tail := x[1..];
      var n := TokenSpan(tail, MAX_PACKET_LEN);
      var body, rest := tail[..n], tail[n..];
      if |rest| > 0 && rest[0] == END then Deliver(body) + Decode(rest[1..])
      else Decode(rest)
  }

  // ---- Tokens ----

  lemma PrependTwice(u: seq<byte>, v: seq<byte>, o: Option<seq<byte>>)
    ensures Prepend(u, Prepend(v, o)) == Prepend(u + v, o)
  {
    if o.Some? {
      assert u + (v + o.value) == u + v + o.value;
    }
  }

  lemma {:induction false} UnescapeConcat(a: seq<byte>, b: seq<byte>)
    requires Unescape(a).Some?
    ensures Unescape(a + b) == Prepend(Unescape(a).value, Unescape(b))
    decreases |a|
  {
    if |a| == 0 {
      assert a + b == b;
      if Unescape(b).Some? {
        assert [] + Unescape(b).value == Unescape(b).value;
      }
    } else {
      var k := if a[0] == ESCAPE then 2 else 1;
      UnescapeConcat(a[k..], b);
      DropConcat(a, b, k);
      PrependTwice([a[k - 1]], Unescape(a[k..]).value, Unescape(b));
    }
  }

  lemma UnescapeToken(b: byte)
    ensures Unescape([ESCAPE, b]) == Some([b])
    ensures !Special(b) ==> Unescape([b]) == Some([b])
    ensures Unescape(EscapeByte(b)) == Some([b])
  {
    assert [ESCAPE, b][2..] == [];
    assert [b][1..] == [];
    assert [b] + [] == [b];
  }

  /** Unescaping undoes escaping, for every byte string. */
  lemma {:induction false} UnescapeEscape(s: seq<byte>)
    ensures Unescape(Escape(s)) == Some(s)
  {
    if |s| != 0 {
      var s', b := s[..|s| - 1], s[|s| - 1];
      UnescapeEscape(s');
      UnescapeToken(b);
      UnescapeConcat(Escape(s'), EscapeByte(b));
      assert s == s' + [b];
    }
  }

  lemma EscapeSnoc(s: seq<byte>, b: byte)
    ensures Escape(s + [b]) == Escape(s) + EscapeByte(b)
  {
    assert (s + [b])[..|s|] == s;
  }

  lemma {:induction false} EscapeConcat(a: seq<byte>, b: seq<byte>)
    ensures Escape(a + b) == Escape(a) + Escape(b)
  {
    if |b| == 0 {
      assert a + b == a;
    } else {
      var b', c := b[..|b| - 1], b[|b| - 1];
      calc {
        Escape(a + b);
        { assert a + b == (a + b') + [c]; }
        Escape((a + b') + [c]);
        { EscapeSnoc(a + b', c); }
        Escape(a + b') + EscapeByte(c);
        { EscapeConcat(a, b'); }
        (Escape(a) + Escape(b')) + EscapeByte(c);
        Escape(a) + (Escape(b') + EscapeByte(c));
        { EscapeSnoc(b', c); assert b == b' + [c]; }
        Escape(a) + Escape(b);
      }
    }
  }

  lemma EscapeOne(b: byte)
    ensures Escape([b]) == EscapeByte(b)
    ensures Stuffed(b, []) == EscapeByte(b)
  {
    assert [b] == [] + [b];
    EscapeSnoc([], b);
    assert [] + EscapeByte(b) == EscapeByte(b);
    assert [b] + [] == [b];
  }

  lemma SumOfTwo(a: byte, b: byte)
    ensures Sum8([b]) == b
    ensures Sum8([a, b]) == Add8(a, b)
  {
    assert [a, b][..1] == [a];
    assert [a][..0] == [] && [b][..0] == [];
  }

  lemma SumOfEscapeByte(b: byte)
    ensures Sum8(EscapeByte(b)) == if Special(b) then Add8(ESCAPE, b) else b
  {
    SumOfTwo(ESCAPE, b);
  }

  lemma StuffedConcat(id: byte, p: seq<byte>, q: seq<byte>)
    ensures Stuffed(id, p + q) == Stuffed(id, p) + Escape(q)
    ensures Sum8(Stuffed(id, p + q)) == Add8(Sum8(Stuffed(id, p)), Sum8(Escape(q)))
  {
    Assoc([id], p, q);
    EscapeConcat([id] + p, q);
    Sum8Concat(Stuffed(id, p), Escape(q));
  }

  // ---- Encoder well-formedness ----

  lemma CheckBytesCancel(sum: byte) returns (check: byte)
    ensures Add8(sum, Sum8(CheckBytes(sum))) == 0
    ensures Unescape(CheckBytes(sum)) == Some([check])
    ensures BEGIN !in CheckBytes(sum)
  {
    var c := CheckBytes(sum);
    check := c[|c| - 1];
    SumOfTwo(ESCAPE, check);
    UnescapeToken(check);
  }

  /** Between BEGIN and END a frame sums to 0 and splits into non-special bytes and escape
      pairs, which spell the id, the payload and one check byte. */
  lemma EncoderWellFormed(id: byte, payload: seq<byte>) returns (check: byte)
    ensures Sum8(Body(id, payload)) == 0
    ensures Unescape(Body(id, payload)) == Some([id] + payload + [check])
  {
    var stuffed := Stuffed(id, payload);
    var close := CheckBytes(Sum8(stuffed));
    check := CheckBytesCancel(Sum8(stuffed));
    Sum8Concat(stuffed, close);
    UnescapeEscape([id] + payload);
    UnescapeConcat(stuffed, close);
  }

  /** A frame body means its own message exactly when the payload fits. */
  lemma DecodeBodyOfEncode(id: byte, payload: seq<byte>)
    ensures DecodeBody(Body(id, payload)) == if |payload| <= 125 then Some(Packet(id, payload)) else None
  {
    var check := EncoderWellFormed(id, payload);
    var u := [id] + payload + [check];
    assert u[1..|u| - 1] == payload;
  }

  // ---- Token spans ----

  /** A complete body of at most `room` tokens is taken whole, up to the delimiter behind it. */
  lemma {:induction false} TokenSpanWhole(body: seq<byte>, rest: seq<byte>, room: nat)
    requires Unescape(body).Some? && |Unescape(body).value| <= room
    requires |rest| > 0 && (rest[0] == BEGIN || rest[0] == END)
    ensures TokenSpan(body + rest, room) == |body|
    decreases |body|
  {
    if |body| == 0 {
      assert body + rest == rest;
    } else {
      var k := if body[0] == ESCAPE then 2 else 1;
      TokenSpanWhole(body[k..], rest, room - 1);
      DropConcat(body, rest, k);
    }
  }

  /** A body with exactly `room` tokens fills the span, whatever follows. */
  lemma {:induction false} TokenSpanFull(body: seq<byte>, rest: seq<byte>, room: nat)
    requires Unescape(body).Some? && |Unescape(body).value| == room
    ensures TokenSpan(body + rest, room) == |body|
    decreases |body|
  {
    if |body| == 0 {
    } else {
      var k := if body[0] == ESCAPE then 2 else 1;
      TokenSpanFull(body[k..], rest, room - 1);
      DropConcat(body, rest, k);
    }
  }

  /** The span is made of complete tokens, no more than `room` of them, and stops before `room`
      only at the end, at a delimiter, or at an escape byte that ends the stream. */
  lemma {:induction false} TokenSpanMeaning(x: seq<byte>, room: nat)
    ensures var n := TokenSpan(x, room);
            Unescape(x[..n]).Some? && |Unescape(x[..n]).value| <= room &&
            (|Unescape(x[..n]).value| < room ==>
              n == |x| || x[n] == BEGIN || x[n] == END || (n == |x| - 1 && x[n] == ESCAPE))
    decreases |x|
  {
    var n := TokenSpan(x, room);
    if n == 0 {
      assert x[..n] == [];
    } else {
      var k := if x[0] == ESCAPE then 2 else 1;
      TokenSpanMeaning(x[k..], room - 1);
      assert x[..n][k..] == x[k..][..n - k];
    }
  }

  // ---- What the stream decoder makes of frames ----

  /** Bytes before the first BEGIN say nothing. */
  lemma {:induction false} DecodeSkipsNoise(noise: seq<byte>, x: seq<byte>)
    requires BEGIN !in noise
    ensures Decode(noise + x) == Decode(x)
  {
    if |noise| == 0 {
      assert noise + x == x;
    } else {
      DecodeSkipsNoise(noise[1..], x);
      DropConcat(noise, x, 1);
    }
  }

  lemma DecodeAtBegin(body: seq<byte>, rest: seq<byte>)
    requires TokenSpan(body + rest, MAX_PACKET_LEN) == |body|
    ensures Decode([BEGIN] + body + rest) ==
            if |rest| > 0 && rest[0] == END then Deliver(body) + Decode(rest[1..]) else Decode(rest)
  {
    var tail := body + rest;
    assert [BEGIN] + body + rest == [BEGIN] + tail;
    assert ([BEGIN] + tail)[1..] == tail;
    assert tail[..|body|] == body;
    assert tail[|body|..] == rest;
  }

  /** How a stream that starts with a BEGIN is read: complete tokens, as many as there are and fit,
      and what comes behind them. */
  lemma StreamParts(x: seq<byte>) returns (body: seq<byte>, rest: seq<byte>)
    requires |x| > 0 && x[0] == BEGIN
    ensures x[1..] == body + rest
    ensures Unescape(body).Some? && |Unescape(body).value| <= MAX_PACKET_LEN
    ensures |rest| > 0 && |Unescape(body).value| < MAX_PACKET_LEN ==>
              rest[0] == END || rest[0] == BEGIN || rest == [ESCAPE]
    ensures Decode(x) == if |rest| > 0 && rest[0] == END then Deliver(body) + Decode(rest[1..]) else Decode(rest)
  {
    var tail := x[1..];
    var n := TokenSpan(tail, MAX_PACKET_LEN);
    body, rest := tail[..n], tail[n..];
    TokenSpanMeaning(tail, MAX_PACKET_LEN);
  }

  lemma DecodeFrame(body: seq<byte>, x: seq<byte>)
    requires Unescape(body).Some? && |Unescape(body).value| <= MAX_PACKET_LEN
    ensures Decode([BEGIN] + body + [END] + x) == Deliver(body) + Decode(x)
  {
    TokenSpanWhole(body, [END] + x, MAX_PACKET_LEN);
    DecodeAtBegin(body, [END] + x);
    Assoc([BEGIN] + body, [END], x);
    assert ([END] + x)[1..] == x;
  }

  /** Frame round trip on the stream: a frame whose payload fits is read back exactly, and
      whatever follows is read as if the frame had not been there. */
  lemma DecodeEncode(id: byte, payload: seq<byte>, x: seq<byte>)
    requires |payload| <= 125
    ensures Decode(Encode(id, payload) + x) == [Packet(id, payload)] + Decode(x)
  {
    var check := EncoderWellFormed(id, payload);
    DecodeFrame(Body(id, payload), x);
    DecodeBodyOfEncode(id, payload);
  }

  function EncodeAll(ms: seq<Packet>): seq<byte> {
    if |ms| == 0 then [] else Encode(ms[0].id, ms[0].payload) + EncodeAll(ms[1..])
  }

  lemma {:induction false} DecodeEncodeAll(ms: seq<Packet>)
    requires forall m :: m in ms ==> |m.payload| <= 125
    ensures Decode(EncodeAll(ms)) == ms
  {
    if |ms| != 0 {
      DecodeEncodeAll(ms[1..]);
      DecodeEncode(ms[0].id, ms[0].payload, EncodeAll(ms[1..]));
    }
  }

  /** No packet read from any stream carries more than 125 payload bytes. */
  lemma {:induction false} DecodedPayloadBound(x: seq<byte>)
    ensures forall p :: p in Decode(x) ==> |p.payload| <= 125
    decreases |x|
  {
    if |x| == 0 {
    } else if x[0] != BEGIN {
      DecodedPayloadBound(x[1..]);
    } else {
      var tail := x[1..];
      var rest := tail[TokenSpan(tail, MAX_PACKET_LEN)..];
      if |rest| > 0 && rest[0] == END {
        DecodedPayloadBound(rest[1..]);
      } else {
        DecodedPayloadBound(rest);
      }
    }
  }

  /** The length bound is sharp: one frame is read back as its message exactly when the payload
      has at most 125 bytes. */
  lemma FrameRoundTripIff(id: byte, payload: seq<byte>)
    ensures Decode(Encode(id, payload)) == [Packet(id, payload)] <==> |payload| <= 125
  {
    if |payload| <= 125 {
      DecodeEncode(id, payload, []);
      assert Encode(id, payload) + [] == Encode(id, payload);
    } else {
      DecodedPayloadBound(Encode(id, payload));
    }
  }

  // ---- Examples ----

  predicate Plain(s: seq<byte>) {
    forall k :: 0 <= k < |s| ==> !Special(s[k])
  }

  lemma {:induction false} PlainEscape(s: seq<byte>)
    requires Plain(s)
    ensures Escape(s) == s
  {
    if |s| > 0 {
      PlainEscape(s[..|s| - 1]);
    }
  }

  /** A frame in which nothing needs an escape. */
  lemma PlainFrame(id: byte, payload: seq<byte>, content: seq<byte>)
    requires content == [id] + payload && Plain(content) && !Special(Neg8(Sum8(content)))
    ensures Encode(id, payload) == [0xf0] + content + [Neg8(Sum8(content))] + [0x0f]
  {
    PlainEscape(content);
    PlainBody(id, payload, content);
  }

  lemma PlainBody(id: byte, payload: seq<byte>, content: seq<byte>)
    requires Stuffed(id, payload) == content && !Special(Neg8(Sum8(content)))
    ensures Encode(id, payload) == [0xf0] + content + [Neg8(Sum8(content))] + [0x0f]
  {
    Assoc([BEGIN], content, [Neg8(Sum8(content))]);
  }

  lemma PlainExample()
    ensures Encode(4, [1]) == [0xf0, 4, 1, 0xfb, 0x0f]
  {
    SumOfTwo(4, 1);
    assert [4] + [1] == [4, 1];
    PlainFrame(4, [1], [4, 1]);
  }

  lemma EscapedCheckExample()
    ensures Encode(0x10, []) == [0xf0, 0x10, 0x3c, 0xb4, 0x0f]
  {
    EscapeOne(0x10);
    assert Sum8([0x10]) == 0x10 by { SumOfTwo(0x10, 0); }
    assert Body(0x10, []) == [0x10, 0x3c, 0xb4];
  }

  lemma EscapedIDExample()
    ensures Encode(0x3c, []) == [0xf0, 0x3c, 0x3c, 0x88, 0x0f]
  {
    EscapeOne(0x3c);
    assert Sum8([0x3c, 0x3c]) == 0x78 by { SumOfTwo(0x3c, 0x3c); }
    assert Body(0x3c, []) == [0x3c, 0x3c, 0x88];
  }

  /** Frames as they are on the wire: the second one has a check byte that would be a BEGIN, so that
      it is computed again and escaped. */
  lemma FrameExamples()
    ensures Encode(4, [1]) == [0xf0, 4, 1, 0xfb, 0x0f]
    ensures Encode(0x10, []) == [0xf0, 0x10, 0x3c, 0xb4, 0x0f]
    ensures Encode(0x3c, []) == [0xf0, 0x3c, 0x3c, 0x88, 0x0f]
  {
    PlainExample();
    EscapedCheckExample();
    EscapedIDExample();
  }
}
