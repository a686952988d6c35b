/** What damaged frames do to a stream: frames whose payload is too long, and frames that the next
    one cuts short. Every reading is exact, whatever follows in the stream. */
module Damage {
  import opened Bytes
  import opened Options
  import opened Framing
  import SenderModel

  // ---- Frames of any length ----

  /** What a frame carries, the id first. */
  function Content(id: byte, payload: seq<byte>): seq<byte> {
    [id] + payload
  }

  /** Where the last packet starts that a receiver opens in `w`, if it comes to `w[k]` outside a
      packet: at the first BEGIN, unless more than 128 tokens follow in the frame (the check byte is
      one); then it gives up behind 128 of them and looks for the next BEGIN there. */
  function LastStart(w: seq<byte>, k: nat): (r: Option<nat>)
    requires k <= |w|
    ensures r.Some? ==> k <= r.value < |w| <= r.value + MAX_PACKET_LEN && w[r.value] == BEGIN
    decreases |w| - k
  {
    if k == |w| then None
    else if w[k] != BEGIN then LastStart(w, k + 1)
    else if |w| <= k + MAX_PACKET_LEN then Some(k)
    else LastStart(w, k + 1 + MAX_PACKET_LEN)
  }

  /** A packet that starts behind the BEGIN `w[j]` is accepted: what is in front of it sums to 0,
      so the rest does too, and it has at least an id and is not too long. */
  predicate Accepted(w: seq<byte>, j: nat)
    requires j < |w|
  {
    Sum8(Escape(w[..j + 1])) == 0 && j + 2 <= |w| < j + MAX_PACKET_LEN
  }

  /** What is read in the rest of a frame by a receiver that comes to `w[k]` outside a packet. */
  function Spurious(w: seq<byte>, k: nat): (r: seq<Packet>)
    requires k <= |w|
    ensures |r| <= 1 && forall p :: p in r ==> |p.payload| + 2 <= |w| - k
  {
    match LastStart(w, k)
    case Some(j) => if Accepted(w, j) then [Packet(w[j + 1], w[j + 2..])] else []
    case None => []
  }

  /** What a frame is read as: itself if it fits; nothing with one byte more; and else what its
      tail spells behind the 128th token. */
  function Reading(id: byte, payload: seq<byte>): (r: seq<Packet>)
    ensures |r| <= 1
  {
    if |payload| <= 125 then [Packet(id, payload)]
    else if |payload| == 126 then []
    else Spurious(Content(id, payload), MAX_PACKET_LEN)
  }

  // ---- Reading from outside a packet ----

  lemma SkipPlain(c: byte, y: seq<byte>)
    requires c != BEGIN
    ensures Decode([c] + y) == Decode(y)
  {
    DecodeSkipsNoise([c], y);
  }

  /** An escaped BEGIN starts a packet outside a packet. */
  lemma SkipEscaped(c: byte, y: seq<byte>)
    ensures Decode([ESCAPE, c] + y) == if c == BEGIN then Decode([BEGIN] + y) else Decode(y)
  {
    assert [ESCAPE, c] + y == [ESCAPE] + ([c] + y);
    SkipPlain(ESCAPE, [c] + y);
    if c != BEGIN {
      SkipPlain(c, y);
    }
  }

  lemma SkipEscapeByte(b: byte, y: seq<byte>)
    ensures Decode(EscapeByte(b) + y) == if b == BEGIN then Decode([BEGIN] + y) else Decode(y)
  {
    if Special(b) {
      SkipEscaped(b, y);
    } else {
      SkipPlain(b, y);
    }
  }

  lemma Token(raw: seq<byte>) returns (t: nat)
    requires Unescape(raw).Some? && |raw| > 0
    ensures 0 < t <= |raw| && Unescape(raw[t..]).Some?
    ensures Unescape(raw).value == [raw[t - 1]] + Unescape(raw[t..]).value
    ensures raw == raw[..t] + raw[t..]
    ensures t == if raw[0] == ESCAPE then 2 else 1
    ensures raw[..t] == if raw[0] == ESCAPE then [ESCAPE, raw[t - 1]] else [raw[t - 1]]
    ensures raw[0] != ESCAPE ==> !Special(raw[t - 1])
  {
    t := if raw[0] == ESCAPE then 2 else 1;
  }

  /** One complete token, read from outside a packet. */
  lemma SkipToken(raw: seq<byte>, y: seq<byte>) returns (t: nat)
    requires Unescape(raw).Some? && |raw| > 0
    ensures 0 < t <= |raw| && Unescape(raw[t..]).Some?
    ensures Unescape(raw).value == [raw[t - 1]] + Unescape(raw[t..]).value
    ensures Decode(raw + y) == if raw[t - 1] == BEGIN then Decode([BEGIN] + (raw[t..] + y)) else Decode(raw[t..] + y)
  {
    t := Token(raw);
    Assoc(raw[..t], raw[t..], y);
    if raw[0] == ESCAPE {
      SkipEscaped(raw[t - 1], raw[t..] + y);
    } else {
      SkipPlain(raw[t - 1], raw[t..] + y);
    }
  }

  // ---- The rest of a frame ----

  function Tail(w: seq<byte>, k: nat): seq<byte>
    requires k <= |w|
  {
    Escape(w[k..]) + CheckBytes(Sum8(Escape(w)))
  }

  lemma CheckHasNoBegin(sum: byte)
    ensures BEGIN !in CheckBytes(sum)
  {
    var check := CheckBytesCancel(sum);
  }

  lemma TailSum(w: seq<byte>, k: nat)
    requires k <= |w|
    ensures Add8(Sum8(Escape(w[..k])), Sum8(Tail(w, k))) == 0
  {
    var close := CheckBytes(Sum8(Escape(w)));
    var check := CheckBytesCancel(Sum8(Escape(w)));
    assert w == w[..k] + w[k..];
    EscapeConcat(w[..k], w[k..]);
    Sum8Concat(Escape(w[..k]), Escape(w[k..]));
    Sum8Concat(Escape(w[k..]), close);
    Add8Assoc(Sum8(Escape(w[..k])), Sum8(Escape(w[k..])), Sum8(close));
  }

  lemma TailMeans(w: seq<byte>, k: nat) returns (check: byte)
    requires k <= |w|
    ensures Unescape(Tail(w, k)) == Some(w[k..] + [check])
    ensures Add8(Sum8(Escape(w[..k])), Sum8(Tail(w, k))) == 0
  {
    check := CheckBytesCancel(Sum8(Escape(w)));
    UnescapeEscape(w[k..]);
    UnescapeConcat(Escape(w[k..]), CheckBytes(Sum8(Escape(w))));
    TailSum(w, k);
  }

  lemma Add8Assoc(a: byte, b: byte, c: byte)
    ensures Add8(Add8(a, b), c) == Add8(a, Add8(b, c))
  {
  }

  lemma TailCons(w: seq<byte>, k: nat)
    requires k < |w|
    ensures Tail(w, k) == EscapeByte(w[k]) + Tail(w, k + 1)
  {
    var close := CheckBytes(Sum8(Escape(w)));
    assert w[k..] == [w[k]] + w[k + 1..];
    EscapeConcat([w[k]], w[k + 1..]);
    EscapeOne(w[k]);
    Assoc(EscapeByte(w[k]), Escape(w[k + 1..]), close);
  }

  lemma {:induction false} EscapeStart(s: seq<byte>)
    ensures |s| > 0 ==> |Escape(s)| > 0 && Escape(s)[0] != END
  {
    if |s| > 0 {
      EscapeStart(s[..|s| - 1]);
    }
  }

  lemma TailSplit(w: seq<byte>, k: nat, m: nat)
    requires k <= m <= |w|
    ensures Tail(w, k) == Escape(w[k..m]) + Tail(w, m)
    ensures m > k ==> |Escape(w[k..m])| > 0 && Escape(w[k..m])[0] != END
    ensures |Tail(w, m)| > 0 && Tail(w, m)[0] != END
  {
    var close := CheckBytes(Sum8(Escape(w)));
    assert w[k..] == w[k..m] + w[m..];
    EscapeConcat(w[k..m], w[m..]);
    Assoc(Escape(w[k..m]), Escape(w[m..]), close);
    EscapeStart(w[k..m]);
    EscapeStart(w[m..]);
  }

  lemma DeliverTail(w: seq<byte>, j: nat)
    requires j < |w| <= j + MAX_PACKET_LEN
    ensures Deliver(Tail(w, j + 1)) == if Accepted(w, j) then [Packet(w[j + 1], w[j + 2..])] else []
  {
    var check := TailMeans(w, j + 1);
    var u := w[j + 1..] + [check];
    assert |w| >= j + 2 ==> u[1..|u| - 1] == w[j + 2..];
  }

  /** The rest of a frame, from any place between two tokens, read from outside a packet. */
  lemma {:induction false} TailReading(w: seq<byte>, k: nat, x: seq<byte>)
    requires k <= |w|
    ensures Decode(Tail(w, k) + [END] + x) == Spurious(w, k) + Decode(x)
    decreases |w| - k, 1
  {
    if k == |w| {
      EmptyTail(w, x);
      assert [] + Decode(x) == Decode(x);
    } else {
      TailStep(w, k, x);
      if w[k] != BEGIN {
        SpuriousSkips(w, k);
        TailReading(w, k + 1, x);
      } else {
        FromBegin(w, k, x);
      }
    }
  }

  lemma EmptyTail(w: seq<byte>, x: seq<byte>)
    ensures Decode(Tail(w, |w|) + [END] + x) == Decode(x)
  {
    var close := CheckBytes(Sum8(Escape(w)));
    CheckHasNoBegin(Sum8(Escape(w)));
    assert Escape(w[|w|..]) == [] && Tail(w, |w|) == close;
    DecodeSkipsNoise(close + [END], x);
  }

  lemma TailStep(w: seq<byte>, k: nat, x: seq<byte>)
    requires k < |w|
    ensures var rest := Tail(w, k + 1) + [END] + x;
            Decode(Tail(w, k) + [END] + x) == if w[k] == BEGIN then Decode([BEGIN] + rest) else Decode(rest)
  {
    TailCons(w, k);
    SkipEscapeByte(w[k], Tail(w, k + 1) + [END] + x);
    GroupEnd(EscapeByte(w[k]), Tail(w, k + 1), x);
  }

  lemma GroupEnd(a: seq<byte>, b: seq<byte>, x: seq<byte>)
    ensures (a + b) + [END] + x == a + (b + [END] + x)
  {
  }

  lemma GroupFrame(a: seq<byte>, b: seq<byte>, x: seq<byte>)
    ensures [BEGIN] + a + (b + [END] + x) == [BEGIN] + ((a + b) + [END] + x) == [BEGIN] + (a + b) + [END] + x
  {
  }

  lemma {:induction false} FromBegin(w: seq<byte>, k: nat, x: seq<byte>)
    requires k < |w| && w[k] == BEGIN
    ensures Decode([BEGIN] + (Tail(w, k + 1) + [END] + x)) == Spurious(w, k) + Decode(x)
    decreases |w| - k, 0
  {
    SpuriousAt(w, k);
    if |w| <= k + MAX_PACKET_LEN {
      LastPacket(w, k, x);
    } else {
      GivesUp(w, k, x);
      TailReading(w, k + 1 + MAX_PACKET_LEN, x);
    }
  }

  lemma SpuriousSkips(w: seq<byte>, k: nat)
    requires k < |w| && w[k] != BEGIN
    ensures Spurious(w, k) == Spurious(w, k + 1)
  {
    assert LastStart(w, k) == LastStart(w, k + 1);
  }

  lemma SpuriousAt(w: seq<byte>, k: nat)
    requires k < |w| && w[k] == BEGIN
    ensures Spurious(w, k) ==
            if |w| <= k + MAX_PACKET_LEN then (if Accepted(w, k) then [Packet(w[k + 1], w[k + 2..])] else [])
            else Spurious(w, k + 1 + MAX_PACKET_LEN)
  {
    assert LastStart(w, k) == if |w| <= k + MAX_PACKET_LEN then Some(k) else LastStart(w, k + 1 + MAX_PACKET_LEN);
  }

  lemma LastPacket(w: seq<byte>, k: nat, x: seq<byte>)
    requires k < |w| <= k + MAX_PACKET_LEN
    ensures Decode([BEGIN] + (Tail(w, k + 1) + [END] + x)) ==
            (if Accepted(w, k) then [Packet(w[k + 1], w[k + 2..])] else []) + Decode(x)
  {
    var check := TailMeans(w, k + 1);
    DecodeFrame(Tail(w, k + 1), x);
    DeliverTail(w, k);
    GroupFrame([], Tail(w, k + 1), x);
    assert [] + Tail(w, k + 1) == Tail(w, k + 1);
  }

  lemma GivesUp(w: seq<byte>, k: nat, x: seq<byte>)
    requires k + MAX_PACKET_LEN < |w|
    ensures Decode([BEGIN] + (Tail(w, k + 1) + [END] + x)) == Decode(Tail(w, k + 1 + MAX_PACKET_LEN) + [END] + x)
  {
    var m := k + 1 + MAX_PACKET_LEN;
    var head, rest := Escape(w[k + 1..m]), Tail(w, m) + [END] + x;
    TailSplit(w, k + 1, m);
    UnescapeEscape(w[k + 1..m]);
    TokenSpanFull(head, rest, MAX_PACKET_LEN);
    DecodeAtBegin(head, rest);
    GroupFrame(head, Tail(w, m), x);
  }

  lemma EncodeIsTail(id: byte, payload: seq<byte>)
    ensures Encode(id, payload) == [BEGIN] + Tail(Content(id, payload), 0) + [END]
  {
    assert Content(id, payload)[0..] == Content(id, payload);
  }

  /** A payload of 127 bytes or more overflows the packet buffer, and the frame is read as if
      its stream started behind the 127th payload byte. */
  lemma OverlongFrameReadsAsItsTail(id: byte, payload: seq<byte>, x: seq<byte>)
    requires |payload| >= 127
    ensures Decode(Encode(id, payload) + x) == Decode(Tail(Content(id, payload), MAX_PACKET_LEN) + [END] + x)
  {
    var w, m := Content(id, payload), MAX_PACKET_LEN;
    var head, rest := Escape(w[0..m]), Tail(w, m) + [END] + x;
    EncodeIsTail(id, payload);
    TailSplit(w, 0, m);
    UnescapeEscape(w[0..m]);
    TokenSpanFull(head, rest, MAX_PACKET_LEN);
    DecodeAtBegin(head, rest);
    GroupFrame(head, Tail(w, m), x);
  }

  /** Every frame, of any length, is read exactly so, and what follows it is read as if the frame
      had not been there. */
  lemma FrameReading(id: byte, payload: seq<byte>, x: seq<byte>)
    ensures Decode(Encode(id, payload) + x) == Reading(id, payload) + Decode(x)
  {
    var w := Content(id, payload);
    if |payload| <= 125 {
      DecodeEncode(id, payload, x);
    } else if |payload| == 126 {
      var check := EncoderWellFormed(id, payload);
      DecodeFrame(Body(id, payload), x);
      DecodeBodyOfEncode(id, payload);
    } else {
      OverlongFrameReadsAsItsTail(id, payload, x);
      TailReading(w, MAX_PACKET_LEN, x);
    }
  }

  /** A frame says nothing at all exactly if its payload has 126 bytes, or more and no packet of
      its tail is accepted. */
  lemma OverlongFrameIsDropped(id: byte, payload: seq<byte>)
    ensures Decode(Encode(id, payload)) == [] <==>
            |payload| == 126 ||
            (|payload| > 126 &&
             var w := Content(id, payload);
             var j := LastStart(w, MAX_PACKET_LEN);
             j.Some? ==> !Accepted(w, j.value))
  {
    FrameReading(id, payload, []);
    assert Encode(id, payload) + [] == Encode(id, payload);
    assert Decode([]) == [];
    assert Reading(id, payload) + [] == Reading(id, payload);
  }

  /** So it does if the tail behind the 127th payload byte holds no BEGIN. */
  lemma {:induction false} NoStart(w: seq<byte>, k: nat)
    requires k <= |w| && BEGIN !in w[k..]
    ensures LastStart(w, k).None?
    decreases |w| - k
  {
    if k < |w| {
      assert w[k..][0] == w[k] && w[k..][1..] == w[k + 1..];
      NoStart(w, k + 1);
    }
  }

  lemma {:induction false} EscapeZeros(n: nat)
    ensures Escape(seq(n, _ => 0)) == seq(n, _ => 0) && Sum8(seq(n, _ => 0)) == 0
  {
    if n > 0 {
      EscapeZeros(n - 1);
      assert seq(n, _ => 0)[..n - 1] == seq(n - 1, _ => 0);
      assert seq(n - 1, _ => 0) + [0] == seq(n, _ => 0);
    }
  }

  lemma ZerosSum(id: byte, n: nat)
    requires !Special(id)
    ensures Sum8(Stuffed(id, seq(n, _ => 0))) == id
  {
    EscapeZeros(n);
    StuffedConcat(id, [], seq(n, _ => 0));
    assert [] + seq(n, _ => 0) == seq(n, _ => 0);
    EscapeOne(id);
    SumOfTwo(id, 0);
  }

  lemma MisleadingSum(zeros: seq<byte>)
    requires zeros == seq(127, _ => 0)
    ensures Sum8(Stuffed(0xd4, zeros + [BEGIN])) == 0
  {
    ZerosSum(0xd4, 127);
    StuffedConcat(0xd4, zeros, [BEGIN]);
    EscapeOne(BEGIN);
    SumOfTwo(ESCAPE, BEGIN);
  }

  /** A packet that nobody sent, read in a frame of 129 payload bytes. */
  lemma OverlongFrameCanMislead()
    ensures Decode(Encode(0xd4, seq(127, _ => 0) + [BEGIN, 1])) == [Packet(1, [])]
  {
    var zeros: seq<byte> := seq(127, _ => 0);
    var payload := zeros + [BEGIN, 1];
    var w := Content(0xd4, payload);
    FrameReading(0xd4, payload, []);
    assert Encode(0xd4, payload) + [] == Encode(0xd4, payload) && Decode([]) == [];
    MisleadingSum(zeros);
    assert w[..129] == [0xd4] + (zeros + [BEGIN]);
    assert w[128] == BEGIN && w[129] == 1 && w[130..] == [];
  }

  // ---- Frames cut short ----

  /** The first k tokens of complete tokens, and the rest. */
  lemma {:induction false} SplitTokens(raw: seq<byte>, k: nat) returns (n: nat)
    requires Unescape(raw).Some? && k <= |Unescape(raw).value|
    ensures n <= |raw| && Unescape(raw[..n]) == Some(Unescape(raw).value[..k])
    ensures Unescape(raw[n..]) == Some(Unescape(raw).value[k..])
    ensures n < |raw| ==> raw[n] != BEGIN && raw[n] != END
    ensures k > 0 ==> n > 0
    decreases |raw|
  {
    if k == 0 {
      n := 0;
      assert raw[..0] == [] && raw[0..] == raw;
    } else {
      var t := Token(raw);
      var m := SplitTokens(raw[t..], k - 1);
      n := t + m;
      SplitMore(raw, t, m, k);
    }
  }

  lemma SplitMore(raw: seq<byte>, t: nat, m: nat, k: nat)
    requires Unescape(raw).Some? && 0 < t <= |raw| && m <= |raw| - t && 0 < k <= |Unescape(raw).value|
    requires t == if raw[0] == ESCAPE then 2 else 1
    requires Unescape(raw).value == [raw[t - 1]] + Unescape(raw[t..]).value
    requires Unescape(raw[t..][..m]) == Some(Unescape(raw[t..]).value[..k - 1])
    requires Unescape(raw[t..][m..]) == Some(Unescape(raw[t..]).value[k - 1..])
    ensures Unescape(raw[..t + m]) == Some(Unescape(raw).value[..k])
    ensures Unescape(raw[t + m..]) == Some(Unescape(raw).value[k..])
    ensures t + m < |raw| ==> raw[t + m] == raw[t..][m]
  {
    TakeCons(raw[t - 1], Unescape(raw[t..]).value, k);
    Slices(raw, t, m);
    FirstToken(raw[..t + m], t, Unescape(raw[t..]).value[..k - 1]);
  }

  lemma Slices(raw: seq<byte>, t: nat, m: nat)
    requires 0 < t <= |raw| && m <= |raw| - t
    ensures raw[..t + m][t..] == raw[t..][..m] && raw[t + m..] == raw[t..][m..]
    ensures raw[..t + m][0] == raw[0] && raw[..t + m][t - 1] == raw[t - 1]
    ensures t + m < |raw| ==> raw[t + m] == raw[t..][m]
  {
  }

  lemma TakeCons(b: byte, v: seq<byte>, k: nat)
    requires 0 < k <= |v| + 1
    ensures ([b] + v)[..k] == [b] + v[..k - 1] && ([b] + v)[k..] == v[k - 1..]
  {
  }

  lemma FirstToken(raw: seq<byte>, t: nat, v: seq<byte>)
    requires 0 < t <= |raw| && t == (if raw[0] == ESCAPE then 2 else 1) && (t == 1 ==> !Special(raw[0]))
    requires Unescape(raw[t..]) == Some(v)
    ensures Unescape(raw) == Some([raw[t - 1]] + v)
  {
  }

  /** Complete tokens in front of a BEGIN, read from outside a packet. */
  lemma {:induction false} DecodeTokens(raw: seq<byte>, x: seq<byte>)
    requires Unescape(raw).Some? && |x| > 0 && x[0] == BEGIN
    ensures Decode(raw + x) == Decode(x)
    decreases |raw|
  {
    if |raw| == 0 {
      assert raw + x == x;
    } else {
      var t := SkipToken(raw, x);
      if raw[t - 1] == BEGIN {
        DecodeTruncated(raw[t..], x);
        Assoc([BEGIN], raw[t..], x);
      } else {
        DecodeTokens(raw[t..], x);
      }
    }
  }

  /** A frame of any length that the next BEGIN cuts short between two tokens says nothing and does
      no harm: all that the BEGIN starts is read as if it had not been there. */
  lemma {:induction false} DecodeTruncated(body: seq<byte>, x: seq<byte>)
    requires Unescape(body).Some? && |x| > 0 && x[0] == BEGIN
    ensures Decode([BEGIN] + body + x) == Decode(x)
    decreases |body|
  {
    if |Unescape(body).value| <= MAX_PACKET_LEN {
      TokenSpanWhole(body, x, MAX_PACKET_LEN);
      DecodeAtBegin(body, x);
    } else {
      var n := SplitTokens(body, MAX_PACKET_LEN);
      assert body == body[..n] + body[n..];
      TruncatedGivesUp(body[..n], body[n..], x);
      DecodeTokens(body[n..], x);
    }
  }

  lemma TruncatedGivesUp(head: seq<byte>, tail: seq<byte>, x: seq<byte>)
    requires Unescape(head).Some? && |Unescape(head).value| == MAX_PACKET_LEN
    requires |x| > 0 && x[0] == BEGIN && (|tail| > 0 ==> tail[0] != END)
    ensures Decode([BEGIN] + (head + tail) + x) == Decode(tail + x)
  {
    TokenSpanFull(head, tail + x, MAX_PACKET_LEN);
    DecodeAtBegin(head, tail + x);
    Assoc([BEGIN], head, tail);
    Assoc([BEGIN] + head, tail, x);
    assert (tail + x)[0] == if |tail| > 0 then tail[0] else BEGIN;
  }

  /** A receiver that has read the tokens `u` behind a BEGIN is still inside a packet that is not
      full. */
  predicate Open(u: seq<byte>)
    decreases |u|
  {
    |u| < MAX_PACKET_LEN || Reopened(u[MAX_PACKET_LEN..])
  }

  /** The same if it was outside a packet before them. */
  predicate Reopened(u: seq<byte>)
    decreases |u|
  {
    |u| > 0 && if u[0] == BEGIN then Open(u[1..]) else Reopened(u[1..])
  }

  /** What is read of a cut frame and the next one that it swallows: the one packet that both make
      if it fits, and else what the next one's tail spells behind the 128th token. */
  function Swallowed(body: seq<byte>, id: byte, payload: seq<byte>): (r: seq<Packet>)
    requires Unescape(body).Some? && |Unescape(body).value| < MAX_PACKET_LEN
    ensures |r| <= 1
  {
    var n := |Unescape(body).value|;
    if n + |payload| + 3 <= MAX_PACKET_LEN then Deliver(body + [ESCAPE, BEGIN] + Body(id, payload))
    else Spurious(Content(id, payload), MAX_PACKET_LEN - 1 - n)
  }

  /** The swallowed frame is not read as itself: what is read instead is longer or shorter. */
  lemma SwallowedIsAnother(body: seq<byte>, id: byte, payload: seq<byte>)
    requires Unescape(body).Some? && |Unescape(body).value| < MAX_PACKET_LEN
    ensures Packet(id, payload) !in Swallowed(body, id, payload)
  {
    if |Unescape(body).value| + |payload| + 3 <= MAX_PACKET_LEN {
      BothIsLonger(body, id, payload);
    }
  }

  lemma BothIsLonger(body: seq<byte>, id: byte, payload: seq<byte>)
    requires Unescape(body).Some?
    ensures forall p :: p in Deliver(body + [ESCAPE, BEGIN] + Body(id, payload)) ==> |p.payload| > |payload|
  {
    var check := SwallowedMeans(body, id, payload);
  }

  lemma SwallowedMeans(body: seq<byte>, id: byte, payload: seq<byte>) returns (check: byte)
    requires Unescape(body).Some?
    ensures Unescape(body + [ESCAPE, BEGIN] + Body(id, payload)) ==
            Some(Unescape(body).value + [BEGIN] + ([id] + payload + [check]))
  {
    check := EncoderWellFormed(id, payload);
    UnescapeToken(BEGIN);
    UnescapeConcat(body, [ESCAPE, BEGIN]);
    UnescapeConcat(body + [ESCAPE, BEGIN], Body(id, payload));
  }

  lemma SwallowedBegin(body: seq<byte>, next: seq<byte>, x: seq<byte>)
    ensures [BEGIN] + (body + [ESCAPE]) + ([BEGIN] + next + [END] + x) ==
            [BEGIN] + (body + [ESCAPE, BEGIN] + next) + [END] + x
  {
    var tail := next + [END] + x;
    calc {
      [BEGIN] + (body + [ESCAPE]) + ([BEGIN] + next + [END] + x);
      { Assoc([BEGIN], next, [END]); Assoc([BEGIN], next + [END], x); }
      [BEGIN] + (body + [ESCAPE]) + ([BEGIN] + tail);
      { Assoc([BEGIN] + (body + [ESCAPE]), [BEGIN], tail); }
      [BEGIN] + (body + [ESCAPE]) + [BEGIN] + tail;
      {
        Assoc([BEGIN], body + [ESCAPE], [BEGIN]);
        Assoc(body, [ESCAPE], [BEGIN]);
        assert [ESCAPE] + [BEGIN] == [ESCAPE, BEGIN];
      }
      [BEGIN] + (body + [ESCAPE, BEGIN]) + tail;
      {
        Assoc([BEGIN] + (body + [ESCAPE, BEGIN]), next + [END], x);
        Assoc([BEGIN] + (body + [ESCAPE, BEGIN]), next, [END]);
      }
      [BEGIN] + (body + [ESCAPE, BEGIN]) + next + [END] + x;
      { Assoc([BEGIN], body + [ESCAPE, BEGIN], next); }
      [BEGIN] + (body + [ESCAPE, BEGIN] + next) + [END] + x;
    }
  }

  lemma OneFrameSwallows(body: seq<byte>, id: byte, payload: seq<byte>, x: seq<byte>)
    requires Unescape(body).Some? && |Unescape(body).value| + |payload| + 3 <= MAX_PACKET_LEN
    ensures Decode([BEGIN] + (body + [ESCAPE, BEGIN] + Body(id, payload)) + [END] + x) ==
            Swallowed(body, id, payload) + Decode(x)
  {
    var check := SwallowedMeans(body, id, payload);
    DecodeFrame(body + [ESCAPE, BEGIN] + Body(id, payload), x);
  }

  lemma JoinedReading(body: seq<byte>, id: byte, payload: seq<byte>, x: seq<byte>)
    requires Unescape(body).Some? && |Unescape(body).value| < MAX_PACKET_LEN
    ensures Decode([BEGIN] + (body + [ESCAPE, BEGIN] + Body(id, payload)) + [END] + x) ==
            Swallowed(body, id, payload) + Decode(x)
  {
    if |Unescape(body).value| + |payload| + 3 <= MAX_PACKET_LEN {
      OneFrameSwallows(body, id, payload, x);
    } else {
      FullFrameSwallows(body, id, payload, x);
    }
  }

  lemma OpenFrameSwallows(body: seq<byte>, id: byte, payload: seq<byte>, x: seq<byte>)
    requires Unescape(body).Some? && |Unescape(body).value| < MAX_PACKET_LEN
    ensures Decode([BEGIN] + (body + [ESCAPE]) + (Encode(id, payload) + x)) == Swallowed(body, id, payload) + Decode(x)
  {
    SwallowedBegin(body, Body(id, payload), x);
    JoinedReading(body, id, payload, x);
  }

  lemma FullFrameSwallows(body: seq<byte>, id: byte, payload: seq<byte>, x: seq<byte>)
    requires Unescape(body).Some? && |Unescape(body).value| < MAX_PACKET_LEN
    requires |Unescape(body).value| + |payload| + 3 > MAX_PACKET_LEN
    ensures Decode([BEGIN] + (body + [ESCAPE, BEGIN] + Body(id, payload)) + [END] + x) ==
            Swallowed(body, id, payload) + Decode(x)
  {
    var w, k := Content(id, payload), MAX_PACKET_LEN - 1 - |Unescape(body).value|;
    var head, rest := body + [ESCAPE, BEGIN] + Escape(w[0..k]), Tail(w, k) + [END] + x;
    UnescapeToken(BEGIN);
    UnescapeConcat(body, [ESCAPE, BEGIN]);
    UnescapeEscape(w[0..k]);
    UnescapeConcat(body + [ESCAPE, BEGIN], Escape(w[0..k]));
    TailSplit(w, 0, k);
    TokenSpanFull(head, rest, MAX_PACKET_LEN);
    DecodeAtBegin(head, rest);
    TailReading(w, k, x);
    assert Content(id, payload)[0..] == Content(id, payload) && Tail(w, 0) == Body(id, payload);
    Regroup(body + [ESCAPE, BEGIN], Escape(w[0..k]), Tail(w, k), x);
  }

  lemma Regroup(a: seq<byte>, b: seq<byte>, c: seq<byte>, x: seq<byte>)
    ensures [BEGIN] + (a + (b + c)) + [END] + x == [BEGIN] + (a + b) + (c + [END] + x)
  {
  }

  /** Complete tokens and an ESCAPE in front of a frame, read from outside a packet. */
  lemma {:induction false} TokensAndEscape(raw: seq<byte>, id: byte, payload: seq<byte>, x: seq<byte>)
    returns (lost: seq<Packet>)
    requires Unescape(raw).Some?
    ensures Decode(raw + [ESCAPE] + (Encode(id, payload) + x)) == lost + Decode(x) && |lost| <= 1
    ensures if Reopened(Unescape(raw).value) then Packet(id, payload) !in lost else lost == Reading(id, payload)
    decreases |raw|
  {
    var y := Encode(id, payload) + x;
    Assoc(raw, [ESCAPE], y);
    if |raw| == 0 {
      assert [] + ([ESCAPE] + y) == [ESCAPE] + y;
      SkipPlain(ESCAPE, y);
      FrameReading(id, payload, x);
      lost := Reading(id, payload);
    } else {
      var t := SkipToken(raw, [ESCAPE] + y);
      Assoc(raw[t..], [ESCAPE], y);
      Assoc([BEGIN], raw[t..] + [ESCAPE], y);
      ReopenedCons(Unescape(raw).value, raw[t - 1], Unescape(raw[t..]).value);
      if raw[t - 1] == BEGIN {
        lost := DecodeTruncatedInEscape(raw[t..], id, payload, x);
      } else {
        lost := TokensAndEscape(raw[t..], id, payload, x);
      }
    }
  }

  lemma ReopenedCons(u: seq<byte>, b: byte, v: seq<byte>)
    requires u == [b] + v
    ensures Reopened(u) == if b == BEGIN then Open(v) else Reopened(v)
  {
    assert u[1..] == v;
  }

  /** Cut right behind an ESCAPE, a frame takes the next one with it if its last packet is still
      open: the escape swallows the BEGIN, and the next frame is not read as itself. Otherwise it
      does no harm either. Behind both, the stream is read as ever. */
  lemma {:induction false} DecodeTruncatedInEscape(body: seq<byte>, id: byte, payload: seq<byte>, x: seq<byte>)
    returns (lost: seq<Packet>)
    requires Unescape(body).Some?
    ensures Decode([BEGIN] + (body + [ESCAPE]) + (Encode(id, payload) + x)) == lost + Decode(x) && |lost| <= 1
    ensures if Open(Unescape(body).value) then Packet(id, payload) !in lost else lost == Reading(id, payload)
    ensures |Unescape(body).value| < MAX_PACKET_LEN ==> lost == Swallowed(body, id, payload)
    decreases |body|
  {
    if |Unescape(body).value| < MAX_PACKET_LEN {
      OpenFrameSwallows(body, id, payload, x);
      SwallowedIsAnother(body, id, payload);
      lost := Swallowed(body, id, payload);
    } else {
      var n := SplitTokens(body, MAX_PACKET_LEN);
      assert body == body[..n] + body[n..];
      CutGivesUp(body[..n], body[n..], Encode(id, payload) + x);
      lost := TokensAndEscape(body[n..], id, payload, x);
    }
  }

  lemma CutGivesUp(head: seq<byte>, tail: seq<byte>, y: seq<byte>)
    requires Unescape(head).Some? && |Unescape(head).value| == MAX_PACKET_LEN && (|tail| > 0 ==> tail[0] != END)
    ensures Decode([BEGIN] + (head + tail + [ESCAPE]) + y) == Decode(tail + [ESCAPE] + y)
  {
    var rest := tail + [ESCAPE] + y;
    TokenSpanFull(head, rest, MAX_PACKET_LEN);
    DecodeAtBegin(head, rest);
    GroupCut(head, tail, y);
    assert rest[0] == if |tail| > 0 then tail[0] else ESCAPE;
  }

  lemma GroupCut(a: seq<byte>, b: seq<byte>, y: seq<byte>)
    ensures [BEGIN] + a + (b + [ESCAPE] + y) == [BEGIN] + ((a + b) + [ESCAPE]) + y
  {
  }

  /** So a frame that is cut short harms the next one exactly if it is cut in an escape of an open
      packet. */
  lemma CutFrameHarmsIff(body: seq<byte>, inEscape: bool, id: byte, payload: seq<byte>, x: seq<byte>)
    requires Unescape(body).Some? && |payload| <= 125
    ensures var cut := [BEGIN] + if inEscape then body + [ESCAPE] else body;
            Decode(cut + (Encode(id, payload) + x)) == [Packet(id, payload)] + Decode(x) <==>
            !(inEscape && Open(Unescape(body).value))
  {
    if inEscape {
      var lost := DecodeTruncatedInEscape(body, id, payload, x);
      assert |lost + Decode(x)| == |lost| + |Decode(x)|;
      if lost + Decode(x) == [Packet(id, payload)] + Decode(x) {
        assert (lost + Decode(x))[0] == lost[0];
      }
    } else {
      DecodeTruncated(body, Encode(id, payload) + x);
      DecodeEncode(id, payload, x);
    }
  }

  /** For instance behind the id 7 the whole next frame is lost. */
  lemma HarmedFrame()
    ensures Decode([BEGIN] + [7, ESCAPE] + Encode(1, [])) == []
  {
    assert [7][1..] == [];
    assert [7] + [] == [7] && [7] + [ESCAPE] == [7, ESCAPE] && Encode(1, []) + [] == Encode(1, []);
    var lost := DecodeTruncatedInEscape([7], 1, [], []);
    var check := EncoderWellFormed(1, []);
    SumOfTwo(7, 0);
    SumOfTwo(ESCAPE, BEGIN);
    Sum8Concat([7], [ESCAPE, BEGIN]);
    Sum8Concat([7] + [ESCAPE, BEGIN], Body(1, []));
  }

  // ---- Stray pieces ----

  /** The sender does not ask whether a frame is open before it sends a piece or an end. Outside a
      frame they are bytes that say nothing, and whatever frame comes next is read as ever. */
  lemma StrayPiece(s: SenderModel.State, data: seq<byte>, id: byte, payload: seq<byte>, x: seq<byte>)
    requires !s.isSending
    ensures SenderModel.Message(SenderModel.InsideFrame(s, 0, data), 0, id, payload).wire
         == s.wire + Escape(data) + Encode(id, payload)
    ensures Decode(Escape(data) + (Encode(id, payload) + x)) == Reading(id, payload) + Decode(x)
  {
    UnescapeEscape(data);
    DecodeTokens(Escape(data), Encode(id, payload) + x);
    FrameReading(id, payload, x);
  }

  lemma StrayEnd(s: SenderModel.State, id: byte, payload: seq<byte>, x: seq<byte>)
    ensures SenderModel.Message(SenderModel.EndFrame(s, 0), 0, id, payload).wire
         == s.wire + CheckBytes(s.checksum) + [END] + Encode(id, payload)
    ensures Decode(CheckBytes(s.checksum) + [END] + (Encode(id, payload) + x)) == Reading(id, payload) + Decode(x)
  {
    CheckHasNoBegin(s.checksum);
    DecodeSkipsNoise(CheckBytes(s.checksum) + [END], Encode(id, payload) + x);
    FrameReading(id, payload, x);
  }
}
