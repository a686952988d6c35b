/** The receiving state machine as a function of one byte, and what whole runs of it deliver.
    The results of acquiring a packet buffer and of posting it are inputs here; the class
    `Receiver` supplies them from a real message pump. */
module ReceiverModel {
  import opened Bytes
  import opened Framing
  import opened Options

  datatype Mode = Unknown | Escaped | Payload | PacketEnd

  /** `armed` says whether a buffer is held, `got` is what the buffer holds of the current
      packet: the id followed by the unescaped bytes. */
  datatype State = State(armed: bool, mode: Mode, got: seq<byte>, sum: byte)

  /** What the message pump answers while one byte is handled. */
  datatype Env = Env(acquire: bool, post: bool, reacquire: bool)

  datatype Input = Input(b: byte, env: Env)

  datatype Outcome = Outcome(state: State, posted: seq<Packet>)

  const ALL_OK := Env(true, true, true)

  function Reset(s: State, acquired: bool): State {
    State(s.armed || acquired, Unknown, [], 0)
  }

  /** A byte that ends a token in the payload: the first one is the id. */
  function Store(s: State, b: byte): State {
    s.(mode := Payload, got := s.got + [b])
  }

  function FinishPacket(s: State, env: Env): Outcome {
    if s.sum != 0 then Outcome(s.(sum := 0, got := []), [])
    else if |s.got| >= 2 then
      Outcome(Reset(s.(armed := !env.post), env.reacquire),
              if env.post then [Packet(s.got[0], s.got[1..|s.got| - 1])] else [])
    else Outcome(s.(mode := Unknown, sum := 0, got := []), [])
  }

  function Handle(s: State, b: byte, env: Env): Outcome
    requires s.armed
  {
    if s.mode != Escaped && b == BEGIN then Outcome(State(true, Payload, [], 0), [])
    else
      var mode := if s.mode != Escaped && b == END then PacketEnd else s.mode;
      if |s.got| >= MAX_PACKET_LEN then Outcome(s.(mode := Unknown), [])
      else
        var t := s.(mode := mode, sum := Add8(s.sum, b));
        match mode
        case Payload => Outcome(if b == ESCAPE then t.(mode := Escaped) else Store(t, b), [])
        case Escaped => Outcome(Store(t, b), [])
        case PacketEnd => FinishPacket(t.(sum := Sub8(t.sum, END)), env)
        case Unknown => Outcome(t, [])
  }

  function Step(s: State, i: Input): Outcome {
    var s' := if s.armed then s else Reset(s, i.env.acquire);
    if s'.armed then Handle(s', i.b, i.env) else Outcome(s', [])
  }

  /** The outcome of a run followed by another run from where it ended. */
  function Then(first: Outcome, second: Outcome): Outcome {
    Outcome(second.state, first.posted + second.posted)
  }

  function Run(s: State, x: seq<Input>): Outcome {
    if |x| == 0 then Outcome(s, [])
    else
      var before := Run(s, x[..|x| - 1]);
      Then(before, Step(before.state, x[|x| - 1]))
  }

  /** The inputs of a run in which every acquisition and every post succeeds. */
  function Ok(x: seq<byte>): (inputs: seq<Input>)
    ensures |inputs| == |x|
  {
    seq(|x|, i requires 0 <= i < |x| => Input(x[i], ALL_OK))
  }

  function BytesOf(x: seq<Input>): (bytes: seq<byte>)
    ensures |bytes| == |x|
  {
    seq(|x|, i requires 0 <= i < |x| => x[i].b)
  }

  const INITIAL := State(false, Unknown, [], 0)

  // ---- Runs ----

  lemma RunSnoc(s: State, x: seq<Input>, i: Input)
    ensures Run(s, x + [i]) == Then(Run(s, x), Step(Run(s, x).state, i))
  {
    assert (x + [i])[..|x|] == x;
  }

  lemma ThenAssociates(a: Outcome, b: Outcome, c: Outcome)
    ensures Then(Then(a, b), c) == Then(a, Then(b, c))
  {
    assert a.posted + b.posted + c.posted == a.posted + (b.posted + c.posted);
  }

  /** A stream handed over in chunks has the effect of the stream handed over at once. */
  lemma {:induction false} RunConcat(s: State, x: seq<Input>, y: seq<Input>)
    ensures Run(s, x + y) == Then(Run(s, x), Run(Run(s, x).state, y))
  {
    var first := Run(s, x);
    if |y| == 0 {
      assert x + y == x;
      assert first.posted + [] == first.posted;
    } else {
      var y', i := y[..|y| - 1], y[|y| - 1];
      RunConcat(s, x, y');
      assert x + y == (x + y') + [i];
      RunSnoc(s, x + y', i);
      var second := Run(first.state, y');
      ThenAssociates(first, second, Step(second.state, i));
    }
  }

  lemma OkConcat(x: seq<byte>, y: seq<byte>)
    ensures Ok(x + y) == Ok(x) + Ok(y)
  {
  }

  lemma RunOkConcat(s: State, x: seq<byte>, y: seq<byte>)
    ensures Run(s, Ok(x + y)) == Then(Run(s, Ok(x)), Run(Run(s, Ok(x)).state, Ok(y)))
  {
    OkConcat(x, y);
    RunConcat(s, Ok(x), Ok(y));
  }

  lemma RunOne(s: State, b: byte)
    ensures Run(s, Ok([b])) == Step(s, Input(b, ALL_OK))
  {
    assert Ok([b]) == [] + [Input(b, ALL_OK)];
    RunSnoc(s, [], Input(b, ALL_OK));
    assert [] + Step(s, Input(b, ALL_OK)).posted == Step(s, Input(b, ALL_OK)).posted;
  }

  // ---- Bounds ----

  /** What holds of the receiver after every byte of every stream. */
  predicate Valid(s: State) {
    && |s.got| <= MAX_PACKET_LEN
    && (s.mode == Escaped ==> |s.got| < MAX_PACKET_LEN)
    && (s.mode == Unknown || s.mode == PacketEnd ==> Hunting(s))
    && (!s.armed ==> s.mode == Unknown && s.got == [])
  }

  /** Not inside a packet: nothing but a BEGIN can change what is delivered next. */
  predicate Hunting(s: State) {
    && (s.mode == Unknown || s.mode == PacketEnd)
    && (|s.got| == 0 || (s.mode == Unknown && |s.got| == MAX_PACKET_LEN))
  }

  lemma StepKeepsValid(s: State, i: Input)
    requires Valid(s)
    ensures Valid(Step(s, i).state)
    ensures |Step(s, i).posted| <= 1
    ensures forall p :: p in Step(s, i).posted ==> |p.payload| <= 125
  {
  }

  lemma {:induction false} RunKeepsValid(s: State, x: seq<Input>)
    requires Valid(s)
    ensures Valid(Run(s, x).state)
    ensures forall p :: p in Run(s, x).posted ==> |p.payload| <= 125
  {
    if |x| != 0 {
      RunKeepsValid(s, x[..|x| - 1]);
      StepKeepsValid(Run(s, x[..|x| - 1]).state, x[|x| - 1]);
    }
  }

  // ---- When the answers of the pump matter ----

  /** The byte completes a packet: an END outside an escape, behind a body that sums to 0 and
      holds at least an id and a check byte. */
  predicate Completes(s: State, b: byte) {
    s.armed && s.mode != Escaped && b == END && 2 <= |s.got| < MAX_PACKET_LEN && s.sum == 0
  }

  lemma PostsIff(s: State, i: Input)
    requires Valid(s)
    ensures Step(s, i).posted ==
            if Completes(s, i.b) && i.env.post then [Packet(s.got[0], s.got[1..|s.got| - 1])] else []
  {
    assert Sub8(Add8(s.sum, END), END) == s.sum;
  }

  /** A step ends the same whatever the pump answers, if there is a buffer when one is needed. */
  lemma StateIgnoresEnv(s: State, b: byte, env: Env)
    requires Valid(s) && (s.armed || env.acquire) && (Completes(s, b) ==> env.reacquire)
    ensures Step(s, Input(b, env)).state == Step(s, Input(b, ALL_OK)).state
  {
    assert Sub8(Add8(s.sum, END), END) == s.sum;
  }

  /** The receiver as it stands once it has a buffer. */
  function Ready(s: State): State {
    if s.armed then s else State(true, Unknown, [], 0)
  }

  /** A step in which the pump grants what is needed is as good as one in which it grants all. */
  lemma ServedStep(s: State, b: byte, env: Env)
    requires Valid(s) && (s.armed || env.acquire) && (Completes(s, b) ==> env.post)
    ensures var out, ok := Step(s, Input(b, env)), Step(Ready(s), Input(b, ALL_OK));
            out.posted == ok.posted && Ready(out.state) == ok.state
  {
    assert Sub8(Add8(s.sum, END), END) == s.sum;
  }

  // ---- Decoder soundness, over every stream and every answer of the pump ----

  /** The receiver stands `body` bytes behind the BEGIN it last accepted. */
  predicate Inside(s: State, body: seq<byte>) {
    && s.armed
    && s.sum == Sum8(body)
    && match s.mode
       case Payload => Unescape(body) == Some(s.got)
       case Escaped => |body| > 0 && body[|body| - 1] == ESCAPE &&
                       Unescape(body[..|body| - 1]) == Some(s.got)
       case _ => false
  }

  lemma InsideStep(s: State, body: seq<byte>, i: Input)
    requires Valid(s) && Inside(s, body)
    ensures var out := Step(s, i);
            && (out.state.mode == Payload || out.state.mode == Escaped ==>
                  Inside(out.state, if s.mode != Escaped && i.b == BEGIN then [] else body + [i.b]))
            && (out.posted != [] ==> i.b == END && i.env.post && out.posted == Deliver(body))
  {
    Sum8Snoc(body, i.b);
    UnescapeToken(i.b);
    if s.mode == Escaped {
      var before := body[..|body| - 1];
      UnescapeConcat(before, [ESCAPE, i.b]);
      assert body + [i.b] == before + [ESCAPE, i.b];
    } else if i.b == ESCAPE {
      assert (body + [i.b])[..|body|] == body;
    } else if i.b != END && i.b != BEGIN {
      UnescapeConcat(body, [i.b]);
    }
  }

  /** The receiver, started in `s`, accepted the BEGIN `x[k]`: it was not in an escape, and it
      stands at the start of a packet behind it. */
  predicate AcceptedAt(s: State, x: seq<Input>, k: nat) {
    k < |x| && x[k].b == BEGIN && Run(s, x[..k]).state.mode != Escaped && Run(s, x[..k + 1]).state == FRESH
  }

  /** Every BEGIN of `x` stands behind an escape. */
  predicate NoneAccepted(s: State, x: seq<Input>) {
    forall k :: 0 <= k < |x| && x[k].b == BEGIN ==> Run(s, x[..k]).state.mode == Escaped
  }

  /** The bytes since the BEGIN `x[at]`, or, without one, since the one that `body` follows. */
  function Since(x: seq<Input>, at: Option<nat>, body: seq<byte>): seq<byte>
    requires at.Some? ==> at.value < |x|
  {
    if at.Some? then BytesOf(x[at.value + 1..]) else body + BytesOf(x)
  }

  /** Where the packet that the receiver is in has started. */
  ghost predicate Located(s: State, x: seq<Input>, at: Option<nat>) {
    var t := Run(s, x).state;
    && Valid(t)
    && (Hunting(t) ||
        match at
        case Some(k) => AcceptedAt(s, x, k) && Inside(t, Since(x, at, []))
        case None => !Hunting(s) && NoneAccepted(s, x) &&
                     forall body :: Inside(s, body) ==> Inside(t, Since(x, at, body)))
  }

  lemma SinceSnoc(x: seq<Input>, i: Input, at: Option<nat>, body: seq<byte>)
    requires at.Some? ==> at.value < |x|
    ensures Since(x + [i], at, body) == Since(x, at, body) + [i.b]
  {
    assert BytesOf(x + [i]) == BytesOf(x) + [i.b];
    if at.Some? {
      assert (x + [i])[at.value + 1..] == x[at.value + 1..] + [i];
      assert BytesOf(x[at.value + 1..] + [i]) == BytesOf(x[at.value + 1..]) + [i.b];
    }
  }

  lemma AcceptedSnoc(s: State, x: seq<Input>, i: Input, k: nat)
    requires AcceptedAt(s, x, k)
    ensures AcceptedAt(s, x + [i], k)
  {
    assert (x + [i])[..k] == x[..k] && (x + [i])[..k + 1] == x[..k + 1];
  }

  lemma NoneAcceptedSnoc(s: State, x: seq<Input>, i: Input)
    requires NoneAccepted(s, x) && (i.b == BEGIN ==> Run(s, x).state.mode == Escaped)
    ensures NoneAccepted(s, x + [i])
  {
    var y := x + [i];
    forall k | 0 <= k < |y| && y[k].b == BEGIN
      ensures Run(s, y[..k]).state.mode == Escaped
    {
      assert y[..k] == x[..k];
      assert k == |x| ==> x[..k] == x;
    }
  }

  lemma LocatedStep(s: State, x: seq<Input>, at: Option<nat>, i: Input) returns (at': Option<nat>)
    requires Located(s, x, at)
    ensures Located(s, x + [i], at')
  {
    var t := Run(s, x).state;
    RunSnoc(s, x, i);
    StepKeepsValid(t, i);
    at' := at;
    if t.mode != Escaped && i.b == BEGIN {
      at' := Some(|x|);
      assert (x + [i])[..|x|] == x && (x + [i])[..|x| + 1] == x + [i];
      assert Since(x + [i], at', []) == [];
    } else if !Hunting(t) {
      match at
      case Some(k) =>
        AcceptedSnoc(s, x, i, k);
        SinceSnoc(x, i, at, []);
        InsideStep(t, Since(x, at, []), i);
      case None =>
        NoneAcceptedSnoc(s, x, i);
        forall body | Inside(s, body) && !Hunting(Step(t, i).state)
          ensures Inside(Step(t, i).state, Since(x + [i], at, body))
        {
          SinceSnoc(x, i, at, body);
          InsideStep(t, Since(x, at, body), i);
        }
    }
  }

  /** After any stream from any valid state the receiver is either hunting or stands a known body
      behind a BEGIN that it has accepted, in the stream or before it. */
  lemma {:induction false} LocatedAfterRun(s: State, x: seq<Input>) returns (at: Option<nat>)
    requires Valid(s)
    ensures Located(s, x, at)
  {
    at := None;
    if |x| == 0 {
      forall body | Inside(s, body)
        ensures Inside(s, Since(x, None, body))
      {
        assert body + BytesOf(x) == body;
      }
    } else {
      var x', i := x[..|x| - 1], x[|x| - 1];
      assert x == x' + [i];
      at := LocatedAfterRun(s, x');
      at := LocatedStep(s, x', at, i);
    }
  }

  /** Decoder soundness: from whatever state, whatever the stream and whatever the pump answers, a
      byte makes the receiver post a packet only if it is an END, and the bytes between it and the
      BEGIN last accepted are a body of that very packet: it sums to 0 and unescapes to id, payload
      and one check byte. If no BEGIN of the stream was accepted, the packet was already open at
      the start, and its body began there. */
  lemma DecoderSoundness(s: State, x: seq<Input>, i: Input) returns (at: Option<nat>)
    requires Valid(s) && Step(Run(s, x).state, i).posted != []
    ensures i.b == END && i.env.post
    ensures at.Some? ==> AcceptedAt(s, x, at.value)
    ensures at.None? ==> !Hunting(s) && NoneAccepted(s, x)
    ensures forall body :: at.Some? || Inside(s, body) ==>
              DecodeBody(Since(x, at, body)).Some? &&
              Step(Run(s, x).state, i).posted == [DecodeBody(Since(x, at, body)).value]
  {
    at := LocatedAfterRun(s, x);
    var t := Run(s, x).state;
    PostsIff(t, i);
    assert !Hunting(t);
    forall body | at.Some? || Inside(s, body)
      ensures DecodeBody(Since(x, at, body)).Some? && Step(t, i).posted == [DecodeBody(Since(x, at, body)).value]
    {
      InsideStep(t, Since(x, at, body), i);
    }
  }

  // ---- Completeness: the receiver delivers what the stream decoder reads ----

  lemma HuntingSkips(s: State, b: byte)
    requires Hunting(s) && b != BEGIN
    ensures Run(s, Ok([b])).posted == [] && Hunting(Run(s, Ok([b])).state)
  {
    RunOne(s, b);
  }

  const FRESH := State(true, Payload, [], 0)

  lemma BeginRestarts(s: State)
    requires s.mode != Escaped || !s.armed
    ensures Run(s, Ok([BEGIN])) == Outcome(FRESH, [])
  {
    RunOne(s, BEGIN);
  }

  function Collected(s: State, raw: seq<byte>, unescaped: seq<byte>): Outcome {
    Outcome(State(true, Payload, s.got + unescaped, Add8(s.sum, Sum8(raw))), [])
  }

  lemma CollectedTwice(s: State, raw: seq<byte>, u: seq<byte>, raw': seq<byte>, u': seq<byte>)
    ensures var first := Collected(s, raw, u);
            Then(first, Collected(first.state, raw', u')) == Collected(s, raw + raw', u + u')
  {
    Sum8Concat(raw, raw');
    assert s.got + u + u' == s.got + (u + u');
  }

  /** Complete tokens are collected unescaped and summed raw, as long as they fit. */
  lemma {:induction false} BodyCollects(s: State, body: seq<byte>)
    requires s.armed && s.mode == Payload
    requires Unescape(body).Some? && |s.got| + |Unescape(body).value| <= MAX_PACKET_LEN
    ensures Run(s, Ok(body)) == Collected(s, body, Unescape(body).value)
    decreases |body|
  {
    if |body| == 0 {
      assert s.got + [] == s.got;
    } else {
      var k := if body[0] == ESCAPE then 2 else 1;
      var token, rest := body[..k], body[k..];
      TokenCollects(s, token);
      BodyCollects(Run(s, Ok(token)).state, rest);
      assert body == token + rest;
      RunOkConcat(s, token, rest);
      CollectedTwice(s, token, [body[k - 1]], rest, Unescape(rest).value);
    }
  }

  lemma PlainCollects(s: State, b: byte)
    requires s.armed && s.mode == Payload && |s.got| < MAX_PACKET_LEN && !Special(b)
    ensures Run(s, Ok([b])) == Collected(s, [b], [b])
  {
    RunOne(s, b);
    Sum8Snoc([], b);
    assert [] + [b] == [b];
  }

  lemma EscapedCollects(s: State, b: byte)
    requires s.armed && s.mode == Payload && |s.got| < MAX_PACKET_LEN
    ensures Run(s, Ok([ESCAPE] + [b])) == Collected(s, [ESCAPE] + [b], [b])
  {
    RunOkConcat(s, [ESCAPE], [b]);
    RunOne(s, ESCAPE);
    RunOne(Run(s, Ok([ESCAPE])).state, b);
    Sum8Snoc([], ESCAPE);
    assert [] + [ESCAPE] == [ESCAPE];
    Sum8Snoc([ESCAPE], b);
  }

  lemma TokenCollects(s: State, token: seq<byte>)
    requires s.armed && s.mode == Payload && |s.got| < MAX_PACKET_LEN
    requires (|token| == 1 && !Special(token[0])) || (|token| == 2 && token[0] == ESCAPE)
    ensures Run(s, Ok(token)) == Collected(s, token, [token[|token| - 1]])
  {
    if |token| == 1 {
      assert token == [token[0]];
      PlainCollects(s, token[0]);
    } else {
      assert token == [token[0]] + [token[1]];
      EscapedCollects(s, token[1]);
    }
  }

  lemma EndDelivers(s: State, body: seq<byte>)
    requires s == State(true, Payload, s.got, Sum8(body)) && Unescape(body) == Some(s.got)
    requires |s.got| <= MAX_PACKET_LEN
    ensures Run(s, Ok([END])).posted == Deliver(body) && Hunting(Run(s, Ok([END])).state)
  {
    RunOne(s, END);
  }

  /** The receiver is a decoder: from any state outside a packet, the packets it posts for a
      byte stream are exactly those that the stream decoder reads in it. */
  lemma {:induction false} ReceiverDecodes(s: State, x: seq<byte>)
    requires Hunting(s)
    ensures Run(s, Ok(x)).posted == Decode(x)
    decreases |x|
  {
    if |x| == 0 {
    } else if x[0] != BEGIN {
      HuntingSkips(s, x[0]);
      ReceiverDecodes(Run(s, Ok([x[0]])).state, x[1..]);
      assert x == [x[0]] + x[1..];
      RunOkConcat(s, [x[0]], x[1..]);
    } else {
      FreshDecodes(x);
      BeginRestarts(s);
      assert x == [BEGIN] + x[1..];
      RunOkConcat(s, [BEGIN], x[1..]);
      assert Run(FRESH, Ok(x[1..])).posted == Decode(x);
    }
  }

  /** The same from inside a packet, at a token boundary, when the stream starts a new frame. */
  lemma ReceiverDecodesFromBegin(s: State, x: seq<byte>)
    requires s.mode != Escaped || !s.armed
    requires |x| > 0 && x[0] == BEGIN
    ensures Run(s, Ok(x)).posted == Decode(x)
  {
    BeginRestarts(s);
    BeginRestarts(INITIAL);
    assert x == [BEGIN] + x[1..];
    RunOkConcat(s, [BEGIN], x[1..]);
    RunOkConcat(INITIAL, [BEGIN], x[1..]);
    ReceiverDecodes(INITIAL, x);
  }

  lemma {:induction false} FreshDecodes(x: seq<byte>)
    requires |x| > 0 && x[0] == BEGIN
    ensures Run(FRESH, Ok(x[1..])).posted == Decode(x)
    decreases |x|, 0
  {
    var body, rest := StreamParts(x);
    assert Run(FRESH, Ok(body)) == Outcome(State(true, Payload, Unescape(body).value, Sum8(body)), []) by {
      BodyCollects(FRESH, body);
      assert [] + Unescape(body).value == Unescape(body).value;
    }
    BodyPostsNothing(body, rest);
    RestDecodes(Run(FRESH, Ok(body)).state, body, rest);
  }

  lemma BodyPostsNothing(body: seq<byte>, rest: seq<byte>)
    requires Run(FRESH, Ok(body)).posted == []
    ensures Run(FRESH, Ok(body + rest)).posted == Run(Run(FRESH, Ok(body)).state, Ok(rest)).posted
  {
    RunOkConcat(FRESH, body, rest);
    var later := Run(Run(FRESH, Ok(body)).state, Ok(rest)).posted;
    assert [] + later == later;
  }

  /** What the receiver makes of the stream behind the tokens that it could collect. */
  lemma {:induction false} RestDecodes(s: State, body: seq<byte>, rest: seq<byte>)
    requires s == State(true, Payload, s.got, Sum8(body)) && Unescape(body) == Some(s.got) && |s.got| <= MAX_PACKET_LEN
    requires |rest| > 0 && |s.got| < MAX_PACKET_LEN ==> rest[0] == END || rest[0] == BEGIN || rest == [ESCAPE]
    ensures Run(s, Ok(rest)).posted ==
            if |rest| > 0 && rest[0] == END then Deliver(body) + Decode(rest[1..]) else Decode(rest)
    decreases |rest|, 2
  {
    if |rest| > 0 {
      if rest[0] == END {
        assert rest == [END] + rest[1..];
        RunOkConcat(s, [END], rest[1..]);
        EndDelivers(s, body);
        ReceiverDecodes(Run(s, Ok([END])).state, rest[1..]);
      } else {
        AfterSpan(s, rest);
      }
    }
  }

  /** Behind a full or cut-off span the receiver loses the packet and hunts on. */
  lemma {:induction false} AfterSpan(s: State, rest: seq<byte>)
    requires s.armed && s.mode == Payload && |s.got| <= MAX_PACKET_LEN
    requires |rest| > 0 && rest[0] != END
    requires |s.got| < MAX_PACKET_LEN ==> rest[0] == BEGIN || rest == [ESCAPE]
    ensures Run(s, Ok(rest)).posted == Decode(rest)
    decreases |rest|, 1
  {
    var b := rest[0];
    assert rest == [b] + rest[1..];
    RunOkConcat(s, [b], rest[1..]);
    RunOne(s, b);
    if b == BEGIN {
      FreshDecodes(rest);
    } else if rest == [ESCAPE] {
      assert rest[1..] == [];
    } else {
      ReceiverDecodes(Run(s, Ok([b])).state, rest[1..]);
    }
  }

  // ---- Self-synchronisation ----

  /** A complete token outside escape mode leaves the receiver outside escape mode, and can
      deliver nothing. */
  lemma TokenLeavesEscape(s: State, token: seq<byte>)
    requires Valid(s) && s.mode != Escaped
    requires (|token| == 1 && !Special(token[0])) || (|token| == 2 && token[0] == ESCAPE)
    ensures var out := Run(s, Ok(token));
            Valid(out.state) && out.state.mode != Escaped && out.posted == []
  {
    RunOne(s, token[0]);
    StepKeepsValid(s, Input(token[0], ALL_OK));
    if |token| == 1 {
      assert token == [token[0]];
    } else {
      var s' := Run(s, Ok([token[0]])).state;
      assert token == [token[0]] + [token[1]];
      RunOkConcat(s, [token[0]], [token[1]]);
      RunOne(s', token[1]);
      StepKeepsValid(s', Input(token[1], ALL_OK));
    }
  }

  lemma {:induction false} BodyLeavesEscape(s: State, body: seq<byte>)
    requires Valid(s) && s.mode != Escaped && Unescape(body).Some?
    ensures var out := Run(s, Ok(body));
            Valid(out.state) && out.state.mode != Escaped && out.posted == []
    decreases |body|
  {
    if |body| != 0 {
      var k := if body[0] == ESCAPE then 2 else 1;
      TokenLeavesEscape(s, body[..k]);
      BodyLeavesEscape(Run(s, Ok(body[..k])).state, body[k..]);
      assert body == body[..k] + body[k..];
      RunOkConcat(s, body[..k], body[k..]);
    }
  }

  lemma BeginLeavesEscape(s: State)
    requires Valid(s)
    ensures var out := Run(s, Ok([BEGIN]));
            Valid(out.state) && out.state.mode != Escaped && out.posted == []
  {
    RunOne(s, BEGIN);
    StepKeepsValid(s, Input(BEGIN, ALL_OK));
  }

  lemma EndSynchronises(s: State)
    requires Valid(s) && s.mode != Escaped
    ensures Hunting(Run(s, Ok([END])).state) && |Run(s, Ok([END])).posted| <= 1
  {
    RunOne(s, END);
  }

  /** Self-synchronisation: from any state at all, even in the middle of an escape, one complete
      frame of any length puts the receiver outside a packet, at the price of at most one
      spurious delivery. */
  lemma FrameSynchronises(s: State, id: byte, payload: seq<byte>)
    requires Valid(s)
    ensures var out := Run(s, Ok(Encode(id, payload)));
            Hunting(out.state) && |out.posted| <= 1
  {
    var check := EncoderWellFormed(id, payload);
    var body := Body(id, payload);
    BeginLeavesEscape(s);
    var s1 := Run(s, Ok([BEGIN])).state;
    BodyLeavesEscape(s1, body);
    EndSynchronises(Run(s1, Ok(body)).state);
    RunOkConcat(s, [BEGIN], body);
    RunOkConcat(s, [BEGIN] + body, [END]);
  }

  /** After any byte sequence whatever, from any receiver state, one frame is enough: all that
      follows it is delivered as the stream decoder reads it. */
  lemma SelfSynchronisation(s: State, garbage: seq<Input>, id: byte, payload: seq<byte>, x: seq<byte>)
    requires Valid(s)
    ensures var lost := Run(Run(s, garbage).state, Ok(Encode(id, payload))).posted;
            |lost| <= 1 &&
            Run(s, garbage + Ok(Encode(id, payload) + x)).posted ==
              Run(s, garbage).posted + lost + Decode(x)
  {
    var s1 := Run(s, garbage).state;
    RunKeepsValid(s, garbage);
    FrameSynchronises(s1, id, payload);
    var frame := Run(s1, Ok(Encode(id, payload)));
    ReceiverDecodes(frame.state, x);
    RunOkConcat(s1, Encode(id, payload), x);
    RunConcat(s, garbage, Ok(Encode(id, payload) + x));
    ThenAssociates(Run(s, garbage), frame, Run(frame.state, Ok(x)));
  }

  /** In particular every later message that fits is delivered exactly, in order, once. */
  lemma SynchronisedMessages(s: State, garbage: seq<Input>, first: Packet, ms: seq<Packet>)
    requires Valid(s)
    requires forall m :: m in ms ==> |m.payload| <= 125
    ensures exists lost :: |lost| <= 1 &&
              Run(s, garbage + Ok(Encode(first.id, first.payload) + EncodeAll(ms))).posted ==
                Run(s, garbage).posted + lost + ms
  {
    SelfSynchronisation(s, garbage, first.id, first.payload, EncodeAll(ms));
    DecodeEncodeAll(ms);
  }

  /** Frame round trip through the state machine, from any state not in the middle of an
      escape: the frame posts exactly its own packet if the payload fits, and never otherwise. */
  lemma FrameRoundTrip(s: State, id: byte, payload: seq<byte>)
    requires s.mode != Escaped || !s.armed
    ensures Run(s, Ok(Encode(id, payload))).posted == [Packet(id, payload)] <==> |payload| <= 125
  {
    ReceiverDecodesFromBegin(s, Encode(id, payload));
    FrameRoundTripIff(id, payload);
  }
}
