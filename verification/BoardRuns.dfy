/** Theorems about whole runs of a board: received bytes, interleaved with anything that other
    disciplined clients and the dispatcher do with the message pump in between. */
module BoardRuns {
  import opened Bytes
  import opened Options
  import opened Framing
  import opened PumpModel
  import opened PumpInvariant
  import PumpRuns
  import Clients
  import ReceiverModel
  import opened BoardModel

  datatype BoardEvent = Byte(b: byte) | Other(ev: Event)

  /** Steps that are not the receiver's: no one else acts for it, and no one else posts packets. */
  predicate Foreign(ev: Event) {
    match ev
    case GetFree(who, _) => who != RECEIVER
    case Fill(who, _, _) => who != RECEIVER
    case PostMessage(who, id, _, _) => who != RECEIVER && id != PACKET_READY
    case _ => true
  }

  ghost predicate Allowed(cfg: Config, bd: Board, be: BoardEvent)
    requires BoardInv(cfg, bd)
  {
    be.Other? ==> Foreign(be.ev) && Disciplined(cfg, bd.sys, be.ev)
  }

  ghost function BoardStep(cfg: Config, bd: Board, be: BoardEvent): (r: Board)
    requires BoardInv(cfg, bd) && Allowed(cfg, bd, be)
  {
    match be
    case Byte(b) => Receive(cfg, bd, b)
    case Other(ev) => bd.(sys := Apply(cfg, bd.sys, ev))
  }

  // ---- Steps of others ----

  /** What the receiver holds, no one else takes or changes. */
  lemma HeldIsStable(cfg: Config, s: Sys, ev: Event, e: nat)
    requires Inv(cfg, s) && Disciplined(cfg, s, ev) && Foreign(ev)
    requires e < cfg.elements && s.own[e] == Held(RECEIVER)
    ensures var t := Apply(cfg, s, ev);
            |t.own| == |s.own| && |t.p.data| == |s.p.data| &&
            t.own[e] == Held(RECEIVER) && t.p.data[e] == s.p.data[e]
  {
    Clients.HeldStaysHeld(cfg, s, ev, RECEIVER, e);
  }

  /** The packets among the messages posted. */
  function PacketsIn(posted: seq<Message>): seq<Packet> {
    if |posted| == 0 then []
    else
      var before, m := PacketsIn(posted[..|posted| - 1]), posted[|posted| - 1];
      if m.id == PACKET_READY && |m.bytes| == PACKET_SIZE then before + [PacketOf(m.bytes)] else before
  }

  lemma PacketsInSnoc(posted: seq<Message>, m: Message)
    ensures PacketsIn(posted + [m]) ==
            PacketsIn(posted) + if m.id == PACKET_READY && |m.bytes| == PACKET_SIZE then [PacketOf(m.bytes)] else []
  {
    assert (posted + [m])[..|posted|] == posted;
  }

  lemma OthersPostNoPackets(cfg: Config, s: Sys, ev: Event)
    requires Inv(cfg, s) && Disciplined(cfg, s, ev) && Foreign(ev)
    ensures PacketsIn(Apply(cfg, s, ev).posted) == PacketsIn(s.posted)
  {
    var t := Apply(cfg, s, ev);
    if ev.PostMessage? && t.posted != s.posted {
      PacketsInSnoc(s.posted, t.posted[|s.posted|]);
    }
  }

  lemma OthersKeepShape(cfg: Config, bd: Board, ev: Event)
    requires BoardInv(cfg, bd) && Disciplined(cfg, bd.sys, ev) && Foreign(ev)
    ensures BoardShape(cfg, bd.(sys := Apply(cfg, bd.sys, ev)))
  {
    ApplyKeepsShape(cfg, bd.sys, ev);
  }

  lemma OthersKeepBoard(cfg: Config, bd: Board, ev: Event)
    requires BoardInv(cfg, bd) && Disciplined(cfg, bd.sys, ev) && Foreign(ev)
    ensures var r := bd.(sys := Apply(cfg, bd.sys, ev));
            BoardInv(cfg, r) && AbsRx(cfg, r) == AbsRx(cfg, bd)
  {
    OthersKeepShape(cfg, bd, ev);
    var r := bd.(sys := Apply(cfg, bd.sys, ev));
    assert Inv(cfg, r.sys) by { StepKeepsInv(cfg, bd.sys, ev); }
    if bd.rx.buffer.Some? {
      HeldIsStable(cfg, bd.sys, ev, bd.rx.buffer.value);
      SameBuffer(cfg, bd, r);
    }
  }

  lemma SameBuffer(cfg: Config, bd: Board, r: Board)
    requires BoardShape(cfg, bd) && BoardShape(cfg, r) && r.rx == bd.rx && bd.rx.buffer.Some?
    requires bd.rx.buffer.value < cfg.elements && r.sys.p.data[bd.rx.buffer.value] == bd.sys.p.data[bd.rx.buffer.value]
    ensures AbsRx(cfg, r) == AbsRx(cfg, bd)
  {
    BufferSize(cfg, bd);
    BufferSize(cfg, r);
  }

  lemma PostedPackets(s: Sys, t: Sys, packets: seq<Packet>)
    requires Posted(s, t, packets)
    ensures PacketsIn(t.posted) == PacketsIn(s.posted) + packets
  {
    if packets != [] {
      var m := t.posted[|s.posted|];
      assert t.posted == s.posted + [m];
      PacketsInSnoc(s.posted, m);
      assert packets == [PacketOf(m.bytes)];
    }
  }

  lemma ByteKeepsBoard(cfg: Config, bd: Board, b: byte)
    requires BoardInv(cfg, bd)
    ensures var out := ReceiverModel.Step(AbsRx(cfg, bd), ReceiverModel.Input(b, EnvOf(cfg, bd)));
            var r := Receive(cfg, bd, b);
            BoardInv(cfg, r) && AbsRx(cfg, r) == out.state &&
            PacketsIn(r.sys.posted) == PacketsIn(bd.sys.posted) + out.posted
  {
    ReceiveRefines(cfg, bd, b);
    PostedPackets(bd.sys, Receive(cfg, bd, b).sys,
      ReceiverModel.Step(AbsRx(cfg, bd), ReceiverModel.Input(b, EnvOf(cfg, bd))).posted);
  }

  lemma BoardStepKeepsInv(cfg: Config, bd: Board, be: BoardEvent)
    requires BoardInv(cfg, bd) && Allowed(cfg, bd, be)
    ensures BoardInv(cfg, BoardStep(cfg, bd, be))
  {
    match be
    case Byte(b) => ByteKeepsBoard(cfg, bd, b);
    case Other(ev) => OthersKeepBoard(cfg, bd, ev);
  }

  // ---- Runs ----

  ghost predicate BoardRun(cfg: Config, bd: Board, evs: seq<BoardEvent>)
    requires BoardInv(cfg, bd)
    decreases |evs|
  {
    |evs| == 0 ||
    (Allowed(cfg, bd, evs[0]) &&
     (BoardStepKeepsInv(cfg, bd, evs[0]); BoardRun(cfg, BoardStep(cfg, bd, evs[0]), evs[1..])))
  }

  ghost function BoardAfter(cfg: Config, bd: Board, evs: seq<BoardEvent>): (r: Board)
    requires BoardInv(cfg, bd) && BoardRun(cfg, bd, evs)
    ensures BoardInv(cfg, r)
    decreases |evs|
  {
    if |evs| == 0 then bd
    else
      BoardStepKeepsInv(cfg, bd, evs[0]);
      BoardAfter(cfg, BoardStep(cfg, bd, evs[0]), evs[1..])
  }

  /** The bytes received during a run, each with what the pump answered at that moment. */
  ghost function Inputs(cfg: Config, bd: Board, evs: seq<BoardEvent>): seq<ReceiverModel.Input>
    requires BoardInv(cfg, bd) && BoardRun(cfg, bd, evs)
    decreases |evs|
  {
    if |evs| == 0 then []
    else
      BoardStepKeepsInv(cfg, bd, evs[0]);
      var rest := Inputs(cfg, BoardStep(cfg, bd, evs[0]), evs[1..]);
      if evs[0].Byte? then [ReceiverModel.Input(evs[0].b, EnvOf(cfg, bd))] + rest else rest
  }

  lemma RunCons(s: ReceiverModel.State, i: ReceiverModel.Input, x: seq<ReceiverModel.Input>)
    ensures var first := ReceiverModel.Step(s, i);
            ReceiverModel.Run(s, [i] + x) == ReceiverModel.Then(first, ReceiverModel.Run(first.state, x))
  {
    ReceiverModel.RunSnoc(s, [], i);
    assert [] + [i] == [i];
    var first := ReceiverModel.Step(s, i);
    assert [] + first.posted == first.posted;
    ReceiverModel.RunConcat(s, [i], x);
  }

  /** Over every run, however the received bytes interleave with everything else on the board,
      the receiver is the machine of `ReceiverModel` run on its bytes alone, and the packets
      among the messages posted are exactly the packets of that machine, in order. */
  lemma {:induction false} BoardRefines(cfg: Config, bd: Board, evs: seq<BoardEvent>)
    requires BoardInv(cfg, bd) && BoardRun(cfg, bd, evs)
    ensures var t := BoardAfter(cfg, bd, evs);
            var out := ReceiverModel.Run(AbsRx(cfg, bd), Inputs(cfg, bd, evs));
            AbsRx(cfg, t) == out.state &&
            PacketsIn(t.sys.posted) == PacketsIn(bd.sys.posted) + out.posted
    decreases |evs|
  {
    if |evs| > 0 {
      var be := evs[0];
      BoardStepKeepsInv(cfg, bd, be);
      var next := BoardStep(cfg, bd, be);
      BoardRefines(cfg, next, evs[1..]);
      match be
      case Other(ev) =>
        OthersKeepBoard(cfg, bd, ev);
        OthersPostNoPackets(cfg, bd.sys, ev);
      case Byte(b) =>
        ByteKeepsBoard(cfg, bd, b);
        var i := ReceiverModel.Input(b, EnvOf(cfg, bd));
        var rest := Inputs(cfg, next, evs[1..]);
        RunCons(AbsRx(cfg, bd), i, rest);
        Assoc(PacketsIn(bd.sys.posted), ReceiverModel.Step(AbsRx(cfg, bd), i).posted,
              ReceiverModel.Run(AbsRx(cfg, next), rest).posted);
    }
  }

  function BytesIn(evs: seq<BoardEvent>): seq<byte> {
    if |evs| == 0 then []
    else if evs[0].Byte? then [evs[0].b] + BytesIn(evs[1..]) else BytesIn(evs[1..])
  }

  /** The byte completes a packet in the receiver's buffer. */
  predicate Completes(bd: Board, b: byte) {
    bd.rx.buffer.Some? && bd.rx.mode != ReceiverModel.Escaped && b == END &&
    2 <= bd.rx.received < MAX_PACKET_LEN && bd.rx.checkSum == 0
  }

  lemma CompletesRefines(cfg: Config, bd: Board, b: byte)
    requires BoardInv(cfg, bd)
    ensures Completes(bd, b) <==> ReceiverModel.Completes(AbsRx(cfg, bd), b)
  {
    if bd.rx.buffer.Some? {
      BufferSize(cfg, bd);
    }
  }

  /** The pump grants what the byte needs: a buffer if there is none, and a place in the queue if
      it completes a packet. */
  ghost predicate Served(cfg: Config, bd: Board, b: byte)
    requires BoardInv(cfg, bd)
  {
    && (bd.rx.buffer.None? ==> Acquirable(cfg, bd.sys.p, PACKET_READY).Some?)
    && (Completes(bd, b) ==> !QueueFull(bd.sys.p))
  }

  /** Every received byte is served. */
  ghost predicate NeverExhausted(cfg: Config, bd: Board, evs: seq<BoardEvent>)
    requires BoardInv(cfg, bd) && BoardRun(cfg, bd, evs)
    decreases |evs|
  {
    |evs| == 0 ||
    ((evs[0].Byte? ==> Served(cfg, bd, evs[0].b)) &&
     (BoardStepKeepsInv(cfg, bd, evs[0]); NeverExhausted(cfg, BoardStep(cfg, bd, evs[0]), evs[1..])))
  }

  lemma HuntingIsValid(cfg: Config, bd: Board)
    requires BoardInv(cfg, bd) && ReceiverModel.Hunting(AbsRx(cfg, bd))
    ensures ReceiverModel.Valid(AbsRx(cfg, bd))
  {
    if bd.rx.buffer.Some? {
      BufferSize(cfg, bd);
    }
  }

  lemma OkCons(b: byte, x: seq<byte>)
    ensures ReceiverModel.Ok([b] + x) == [ReceiverModel.Input(b, ReceiverModel.ALL_OK)] + ReceiverModel.Ok(x)
  {
  }

  lemma StepKeepsValid(cfg: Config, bd: Board, be: BoardEvent)
    requires BoardInv(cfg, bd) && Allowed(cfg, bd, be) && ReceiverModel.Valid(AbsRx(cfg, bd))
    ensures BoardInv(cfg, BoardStep(cfg, bd, be)) && ReceiverModel.Valid(AbsRx(cfg, BoardStep(cfg, bd, be)))
  {
    match be
    case Byte(b) =>
      ByteKeepsBoard(cfg, bd, b);
      ReceiverModel.StepKeepsValid(AbsRx(cfg, bd), ReceiverModel.Input(b, EnvOf(cfg, bd)));
    case Other(ev) => OthersKeepBoard(cfg, bd, ev);
  }

  lemma ServedByte(cfg: Config, bd: Board, b: byte)
    requires BoardInv(cfg, bd) && ReceiverModel.Valid(AbsRx(cfg, bd)) && Served(cfg, bd, b)
    ensures var r, s := Receive(cfg, bd, b), ReceiverModel.Ready(AbsRx(cfg, bd));
            var ok := ReceiverModel.Step(s, ReceiverModel.Input(b, ReceiverModel.ALL_OK));
            && BoardInv(cfg, r) && ReceiverModel.Ready(AbsRx(cfg, r)) == ok.state
            && PacketsIn(r.sys.posted) == PacketsIn(bd.sys.posted) + ok.posted
  {
    ByteKeepsBoard(cfg, bd, b);
    CompletesRefines(cfg, bd, b);
    ReceiverModel.ServedStep(AbsRx(cfg, bd), b, EnvOf(cfg, bd));
  }

  /** If nothing is exhausted, the answers of the pump make no difference. */
  lemma {:induction false} ServedRun(cfg: Config, bd: Board, evs: seq<BoardEvent>)
    requires BoardInv(cfg, bd) && BoardRun(cfg, bd, evs) && NeverExhausted(cfg, bd, evs)
    requires ReceiverModel.Valid(AbsRx(cfg, bd))
    ensures PacketsIn(BoardAfter(cfg, bd, evs).sys.posted) == PacketsIn(bd.sys.posted) +
            ReceiverModel.Run(ReceiverModel.Ready(AbsRx(cfg, bd)), ReceiverModel.Ok(BytesIn(evs))).posted
    decreases |evs|
  {
    if |evs| > 0 {
      var be := evs[0];
      StepKeepsValid(cfg, bd, be);
      var next := BoardStep(cfg, bd, be);
      ServedRun(cfg, next, evs[1..]);
      match be
      case Other(ev) =>
        OthersKeepBoard(cfg, bd, ev);
        OthersPostNoPackets(cfg, bd.sys, ev);
      case Byte(b) =>
        ServedByte(cfg, bd, b);
        ServedCons(cfg, bd, b, next, BytesIn(evs[1..]), PacketsIn(BoardAfter(cfg, bd, evs).sys.posted));
    }
  }

  lemma ServedCons(cfg: Config, bd: Board, b: byte, next: Board, rest: seq<byte>, all: seq<Packet>)
    requires BoardShape(cfg, bd) && BoardShape(cfg, next)
    requires var s := ReceiverModel.Ready(AbsRx(cfg, bd));
             var ok := ReceiverModel.Step(s, ReceiverModel.Input(b, ReceiverModel.ALL_OK));
             && ReceiverModel.Ready(AbsRx(cfg, next)) == ok.state
             && PacketsIn(next.sys.posted) == PacketsIn(bd.sys.posted) + ok.posted
    requires all == PacketsIn(next.sys.posted) +
             ReceiverModel.Run(ReceiverModel.Ready(AbsRx(cfg, next)), ReceiverModel.Ok(rest)).posted
    ensures all == PacketsIn(bd.sys.posted) +
            ReceiverModel.Run(ReceiverModel.Ready(AbsRx(cfg, bd)), ReceiverModel.Ok([b] + rest)).posted
  {
    var s, i := ReceiverModel.Ready(AbsRx(cfg, bd)), ReceiverModel.Input(b, ReceiverModel.ALL_OK);
    var ok := ReceiverModel.Step(s, i);
    OkCons(b, rest);
    RunCons(s, i, ReceiverModel.Ok(rest));
    Assoc(PacketsIn(bd.sys.posted), ok.posted, ReceiverModel.Run(ok.state, ReceiverModel.Ok(rest)).posted);
  }

  /** A board on which nothing is exhausted is a decoder: from any state outside a packet it
      posts exactly the packets that the stream decoder reads in the received bytes. */
  lemma BoardDecodes(cfg: Config, bd: Board, evs: seq<BoardEvent>)
    requires BoardInv(cfg, bd) && BoardRun(cfg, bd, evs) && NeverExhausted(cfg, bd, evs)
    requires ReceiverModel.Hunting(AbsRx(cfg, bd))
    ensures PacketsIn(BoardAfter(cfg, bd, evs).sys.posted)
         == PacketsIn(bd.sys.posted) + Decode(BytesIn(evs))
  {
    HuntingIsValid(cfg, bd);
    ServedRun(cfg, bd, evs);
    ReceiverModel.ReceiverDecodes(ReceiverModel.Ready(AbsRx(cfg, bd)), BytesIn(evs));
  }

  /** From any state at all, one complete frame is enough: of what follows every packet that the
      stream decoder reads is posted, after at most one spurious one. */
  lemma BoardSynchronises(cfg: Config, bd: Board, evs: seq<BoardEvent>, id: byte, payload: seq<byte>, x: seq<byte>)
    requires BoardInv(cfg, bd) && BoardRun(cfg, bd, evs) && NeverExhausted(cfg, bd, evs)
    requires ReceiverModel.Valid(AbsRx(cfg, bd)) && BytesIn(evs) == Encode(id, payload) + x
    ensures exists lost: seq<Packet> :: |lost| <= 1 &&
              PacketsIn(BoardAfter(cfg, bd, evs).sys.posted) == PacketsIn(bd.sys.posted) + (lost + Decode(x))
  {
    ServedRun(cfg, bd, evs);
    var s := ReceiverModel.Ready(AbsRx(cfg, bd));
    ReceiverModel.RunOkConcat(s, Encode(id, payload), x);
    ReceiverModel.FrameSynchronises(s, id, payload);
    ReceiverModel.ReceiverDecodes(ReceiverModel.Run(s, ReceiverModel.Ok(Encode(id, payload))).state, x);
  }

  lemma BoardStepGrows(cfg: Config, bd: Board, be: BoardEvent)
    requires BoardInv(cfg, bd) && Allowed(cfg, bd, be)
    ensures bd.sys.posted <= BoardStep(cfg, bd, be).sys.posted
  {
    match be
    case Byte(b) => ReceiveRefines(cfg, bd, b);
    case Other(ev) => PumpRuns.StepGrows(cfg, bd.sys, ev);
  }

  /** A run only adds to the messages posted. */
  lemma {:induction false} BoardGrows(cfg: Config, bd: Board, evs: seq<BoardEvent>)
    requires BoardInv(cfg, bd) && BoardRun(cfg, bd, evs)
    ensures bd.sys.posted <= BoardAfter(cfg, bd, evs).sys.posted
    decreases |evs|
  {
    if |evs| > 0 {
      BoardStepKeepsInv(cfg, bd, evs[0]);
      BoardStepGrows(cfg, bd, evs[0]);
      BoardGrows(cfg, BoardStep(cfg, bd, evs[0]), evs[1..]);
    }
  }

  // ---- Progress ----

  lemma BoardStepProgress(cfg: Config, bd: Board, be: BoardEvent)
    requires BoardInv(cfg, bd) && Allowed(cfg, bd, be)
    ensures PumpRuns.Progress(bd.sys) <= PumpRuns.Progress(BoardStep(cfg, bd, be).sys) <= PumpRuns.Progress(bd.sys) + 1
  {
    if be.Other? {
      PumpRuns.StepProgress(cfg, bd.sys, be.ev);
    }
  }

  lemma PrefixCons(cfg: Config, bd: Board, evs: seq<BoardEvent>, i: nat)
    requires BoardInv(cfg, bd) && 0 < i <= |evs| && Allowed(cfg, bd, evs[0])
    requires BoardInv(cfg, BoardStep(cfg, bd, evs[0])) && BoardRun(cfg, BoardStep(cfg, bd, evs[0]), evs[1..][..i - 1])
    ensures BoardRun(cfg, bd, evs[..i])
    ensures BoardAfter(cfg, bd, evs[..i]) == BoardAfter(cfg, BoardStep(cfg, bd, evs[0]), evs[1..][..i - 1])
  {
    assert evs[..i][0] == evs[0] && evs[..i][1..] == evs[1..][..i - 1];
  }

  /** A run passes through every stage of the dispatcher's work between its first and its last. */
  lemma {:induction false} PassesThrough(cfg: Config, bd: Board, evs: seq<BoardEvent>, stage: nat) returns (i: nat)
    requires BoardInv(cfg, bd) && BoardRun(cfg, bd, evs)
    requires PumpRuns.Progress(bd.sys) <= stage <= PumpRuns.Progress(BoardAfter(cfg, bd, evs).sys)
    ensures i <= |evs| && BoardRun(cfg, bd, evs[..i])
    ensures PumpRuns.Progress(BoardAfter(cfg, bd, evs[..i]).sys) == stage
    ensures BoardAfter(cfg, bd, evs[..i]).sys.posted <= BoardAfter(cfg, bd, evs).sys.posted
    decreases |evs|
  {
    i := 0;
    if PumpRuns.Progress(bd.sys) == stage {
      BoardGrows(cfg, bd, evs);
    } else {
      BoardStepKeepsInv(cfg, bd, evs[0]);
      BoardStepProgress(cfg, bd, evs[0]);
      i := PassesThrough(cfg, BoardStep(cfg, bd, evs[0]), evs[1..], stage);
      i := i + 1;
      PrefixCons(cfg, bd, evs, i);
    }
  }

  // ---- What the receiver holds ----

  ghost function OwnAfterReset(cfg: Config, bd: Board, own: seq<Owner>): seq<Owner>
    requires BoardShape(cfg, bd) && |own| == cfg.elements
  {
    var free := Acquirable(cfg, bd.sys.p, PACKET_READY);
    if free.Some? then own[free.value := Held(RECEIVER)] else own
  }

  ghost function BufferAfterReset(cfg: Config, bd: Board, buffer: Option<nat>): Option<nat>
    requires BoardShape(cfg, bd)
  {
    var free := Acquirable(cfg, bd.sys.p, PACKET_READY);
    if free.Some? then free else buffer
  }

  lemma ResetOwns(cfg: Config, bd: Board)
    requires BoardShape(cfg, bd)
    ensures ResetBuffer(cfg, bd).sys.own == OwnAfterReset(cfg, bd, bd.sys.own)
    ensures ResetBuffer(cfg, bd).rx.buffer == BufferAfterReset(cfg, bd, bd.rx.buffer)
  {
  }

  lemma PostBufferOwns(cfg: Config, s: Sys, e: nat)
    requires InPacketPool(cfg, e) && e < cfg.elements && Inv(cfg, s) && s.own[e] == Held(RECEIVER)
    ensures var t := PostBuffer(cfg, s, e);
            && t.own == (if QueueFull(s.p) then s.own else s.own[e := Queued])
            && Acquirable(cfg, t.p, PACKET_READY) == Acquirable(cfg, s.p, PACKET_READY)
            && (PostSucceeds(cfg, s, e) <==> !QueueFull(s.p))
  {
    PostBufferIs(cfg, s, e);
    PostKeepsFree(cfg, s, e);
  }

  lemma PostPacketOwnsFrom(cfg: Config, bd: Board, s: Sys, e: nat)
    requires BoardShape(cfg, bd) && bd.rx.buffer == Some(e) && bd.rx.received >= 2
    requires e < cfg.elements && |bd.sys.p.data[e]| == PACKET_SIZE
    requires s == PutLength(cfg, bd.sys, e, bd.rx.received - 2) && s == bd.sys.(p := bd.sys.p.(data := s.p.data))
    requires Inv(cfg, s) && s.own[e] == Held(RECEIVER)
    ensures var full, r := QueueFull(bd.sys.p), PostPacket(cfg, bd);
            && r.sys.own == OwnAfterReset(cfg, bd, if full then bd.sys.own else bd.sys.own[e := Queued])
            && r.rx.buffer == BufferAfterReset(cfg, bd, if full then Some(e) else None)
  {
    PostPacketIs(cfg, bd, s, e);
    PostBufferOwns(cfg, s, e);
    ResetOwns(cfg, Board(PostBuffer(cfg, s, e), if PostSucceeds(cfg, s, e) then bd.rx.(buffer := None) else bd.rx));
  }

  lemma LengthIsPut(cfg: Config, bd: Board, e: nat, len: byte)
    requires BoardInv(cfg, bd) && bd.rx.buffer == Some(e)
    requires e < cfg.elements && |bd.sys.p.data[e]| == PACKET_SIZE
    ensures var s := PutLength(cfg, bd.sys, e, len);
            Inv(cfg, s) && s == bd.sys.(p := bd.sys.p.(data := s.p.data)) && s.own == bd.sys.own
  {
    PutLengthIs(cfg, bd.sys, e, len);
  }

  lemma PostPacketOwns(cfg: Config, bd: Board, e: nat)
    requires BoardInv(cfg, bd) && bd.rx.buffer == Some(e) && 2 <= bd.rx.received < MAX_PACKET_LEN
    ensures e < |bd.sys.own|
    ensures var full, r := QueueFull(bd.sys.p), PostPacket(cfg, bd);
            && r.sys.own == OwnAfterReset(cfg, bd, if full then bd.sys.own else bd.sys.own[e := Queued])
            && r.rx.buffer == BufferAfterReset(cfg, bd, if full then Some(e) else None)
  {
    BufferSize(cfg, bd);
    var s := PutLength(cfg, bd.sys, e, bd.rx.received - 2);
    LengthIsPut(cfg, bd, e, bd.rx.received - 2);
    PostPacketOwnsFrom(cfg, bd, s, e);
  }

  lemma HandleOwns(cfg: Config, bd: Board, b: byte)
    requires BoardShape(cfg, bd) && bd.rx.buffer.Some? && !Completes(bd, b)
    requires bd.rx.mode == ReceiverModel.PacketEnd ==> bd.rx.received == 0
    ensures Handle(cfg, bd, b).sys.own == bd.sys.own && Handle(cfg, bd, b).rx.buffer == bd.rx.buffer
  {
  }

  /** The board when the END of a packet is judged, with the interface noted in the buffer. */
  ghost function Marking(cfg: Config, bd: Board): (r: Board)
    requires BoardShape(cfg, bd) && bd.rx.buffer.Some?
    ensures BoardShape(cfg, r)
  {
    BufferSize(cfg, bd);
    Board(Put(cfg, bd.sys, bd.rx.buffer.value, AT_INTERFACE, INTERFACE),
          bd.rx.(mode := ReceiverModel.PacketEnd, checkSum := 0))
  }

  lemma MarkingOwns(cfg: Config, bd: Board)
    requires BoardInv(cfg, bd) && bd.rx.buffer.Some?
    ensures var r := Marking(cfg, bd);
            && BoardInv(cfg, r) && r.sys.own == bd.sys.own
            && r.rx.buffer == bd.rx.buffer && r.rx.received == bd.rx.received
            && QueueFull(r.sys.p) == QueueFull(bd.sys.p)
            && Acquirable(cfg, r.sys.p, PACKET_READY) == Acquirable(cfg, bd.sys.p, PACKET_READY)
  {
    BufferSize(cfg, bd);
    PutKeepsInv(cfg, bd.sys, bd.rx.buffer.value, AT_INTERFACE, INTERFACE);
  }

  lemma FinishLast(cfg: Config, bd: Board, last: Board)
    requires BoardShape(cfg, bd) && bd.rx.buffer.Some? && bd.rx.received >= 2
    requires last == bd.(rx := bd.rx.(mode := ReceiverModel.PacketEnd, checkSum := 0))
    ensures FinishPacket(cfg, last).sys == PostPacket(cfg, Marking(cfg, bd)).sys
    ensures FinishPacket(cfg, last).rx.buffer == PostPacket(cfg, Marking(cfg, bd)).rx.buffer
  {
    BufferSize(cfg, bd);
  }

  lemma HandleLast(cfg: Config, bd: Board, b: byte)
    requires BoardShape(cfg, bd) && Completes(bd, b)
    ensures Handle(cfg, bd, b) == FinishPacket(cfg, bd.(rx := bd.rx.(mode := ReceiverModel.PacketEnd, checkSum := 0)))
  {
    assert Sub8(Add8(bd.rx.checkSum, b), END) == 0;
  }

  lemma ReceiveLast(cfg: Config, bd: Board, b: byte)
    requires BoardShape(cfg, bd) && Completes(bd, b)
    ensures Receive(cfg, bd, b).sys == PostPacket(cfg, Marking(cfg, bd)).sys
    ensures Receive(cfg, bd, b).rx.buffer == PostPacket(cfg, Marking(cfg, bd)).rx.buffer
  {
    HandleLast(cfg, bd, b);
    FinishLast(cfg, bd, bd.(rx := bd.rx.(mode := ReceiverModel.PacketEnd, checkSum := 0)));
  }

  lemma CompletionOwns(cfg: Config, bd: Board, b: byte)
    requires BoardInv(cfg, bd) && Completes(bd, b)
    ensures var e, full, r := bd.rx.buffer.value, QueueFull(bd.sys.p), Receive(cfg, bd, b);
            && e < |bd.sys.own|
            && r.sys.own == OwnAfterReset(cfg, bd, if full then bd.sys.own else bd.sys.own[e := Queued])
            && r.rx.buffer == BufferAfterReset(cfg, bd, if full then Some(e) else None)
  {
    ReceiveLast(cfg, bd, b);
    MarkingOwns(cfg, bd);
    PostPacketOwns(cfg, Marking(cfg, bd), bd.rx.buffer.value);
  }

  /** The receiver holds no element but its buffer. */
  ghost predicate NothingLost(cfg: Config, bd: Board)
    requires BoardInv(cfg, bd)
  {
    forall e :: 0 <= e < cfg.elements && bd.sys.own[e] == Held(RECEIVER) ==> bd.rx.buffer == Some(e)
  }

  lemma ArmingLosesNothing(cfg: Config, bd: Board, b: byte)
    requires BoardInv(cfg, bd) && bd.rx.buffer.None? && BoardInv(cfg, Receive(cfg, bd, b))
    ensures NothingLost(cfg, Receive(cfg, bd, b)) <==> NothingLost(cfg, bd)
  {
    ResetOwns(cfg, bd);
    var armed := ResetBuffer(cfg, bd);
    if armed.rx.buffer.Some? {
      AcquirableIsFree(cfg, bd);
      HandleOwns(cfg, armed, b);
      ArmingHolds(bd.sys.own, armed.sys.own, armed.rx.buffer.value);
    }
  }

  lemma ArmingHolds(own: seq<Owner>, after: seq<Owner>, free: nat)
    requires free < |own| && own[free] == Free && after == own[free := Held(RECEIVER)]
    ensures (forall e :: 0 <= e < |own| && after[e] == Held(RECEIVER) ==> free == e) <==>
            (forall e :: 0 <= e < |own| ==> own[e] != Held(RECEIVER))
  {
    forall e | 0 <= e < |own| && own[e] == Held(RECEIVER)
      ensures after[e] == Held(RECEIVER) && free != e
    {
    }
  }

  /** What the pump would hand out is free in the ledger. */
  lemma AcquirableIsFree(cfg: Config, bd: Board)
    requires BoardInv(cfg, bd) && Acquirable(cfg, bd.sys.p, PACKET_READY).Some?
    ensures var e := Acquirable(cfg, bd.sys.p, PACKET_READY).value;
            PacketPool(cfg).base <= e < PacketPool(cfg).base + PacketPool(cfg).amount && bd.sys.own[e] == Free
  {
    var e := Acquirable(cfg, bd.sys.p, PACKET_READY).value;
    assert HeaderOk(bd.sys.p.hdr[e], bd.sys.own[e], bd.sys.locks[e], bd.sys.p.pc);
  }

  lemma SwapLosesIff(cfg: Config, bd: Board, e: nat, r: Board)
    requires BoardInv(cfg, bd) && BoardInv(cfg, r) && bd.rx.buffer == Some(e)
    requires var free := Acquirable(cfg, bd.sys.p, PACKET_READY);
             free.Some? ==> free.value < cfg.elements && bd.sys.own[free.value] == Free
    requires var full := QueueFull(bd.sys.p);
             && r.sys.own == OwnAfterReset(cfg, bd, if full then bd.sys.own else bd.sys.own[e := Queued])
             && r.rx.buffer == BufferAfterReset(cfg, bd, if full then Some(e) else None)
    ensures NothingLost(cfg, r) <==>
            NothingLost(cfg, bd) && !(QueueFull(bd.sys.p) && Acquirable(cfg, bd.sys.p, PACKET_READY).Some?)
  {
    SwapHolds(bd.sys.own, r.sys.own, e, QueueFull(bd.sys.p), Acquirable(cfg, bd.sys.p, PACKET_READY), r.rx.buffer);
  }

  /** Who holds what when the receiver's element e goes to the queue, unless that is full, and a
      free element takes its place, if there is one. */
  lemma SwapHolds(own: seq<Owner>, after: seq<Owner>, e: nat, full: bool, free: Option<nat>, buffer: Option<nat>)
    requires e < |own| == |after| && own[e] == Held(RECEIVER)
    requires free.Some? ==> free.value < |own| && own[free.value] == Free
    requires var posted := if full then own else own[e := Queued];
             after == if free.Some? then posted[free.value := Held(RECEIVER)] else posted
    requires buffer == if free.Some? then free else if full then Some(e) else None
    ensures (forall x :: 0 <= x < |own| && after[x] == Held(RECEIVER) ==> buffer == Some(x)) <==>
            (forall x :: 0 <= x < |own| && own[x] == Held(RECEIVER) ==> x == e) && !(full && free.Some?)
  {
    forall x | 0 <= x < |own| && own[x] == Held(RECEIVER) && x != e
      ensures after[x] == Held(RECEIVER) && buffer != Some(x)
    {
    }
    assert full && free.Some? ==> after[e] == Held(RECEIVER) && buffer != Some(e);
  }

  lemma CompletionLosesIff(cfg: Config, bd: Board, b: byte)
    requires BoardInv(cfg, bd) && Completes(bd, b) && BoardInv(cfg, Receive(cfg, bd, b))
    ensures NothingLost(cfg, Receive(cfg, bd, b)) <==>
            NothingLost(cfg, bd) && !(QueueFull(bd.sys.p) && Acquirable(cfg, bd.sys.p, PACKET_READY).Some?)
  {
    CompletionOwns(cfg, bd, b);
    var free := Acquirable(cfg, bd.sys.p, PACKET_READY);
    assert free.Some? ==> free.value < cfg.elements && bd.sys.own[free.value] == Free by {
      if free.Some? {
        AcquirableIsFree(cfg, bd);
      }
    }
    SwapLosesIff(cfg, bd, bd.rx.buffer.value, Receive(cfg, bd, b));
  }

  lemma PlainByteLosesNothing(cfg: Config, bd: Board, b: byte)
    requires BoardInv(cfg, bd) && bd.rx.buffer.Some? && !Completes(bd, b)
    requires bd.rx.mode == ReceiverModel.PacketEnd ==> bd.rx.received == 0
    requires BoardInv(cfg, Receive(cfg, bd, b))
    ensures NothingLost(cfg, Receive(cfg, bd, b)) <==> NothingLost(cfg, bd)
  {
    HandleOwns(cfg, bd, b);
  }

  lemma ValidPacketEnd(cfg: Config, bd: Board)
    requires BoardShape(cfg, bd) && ReceiverModel.Valid(AbsRx(cfg, bd))
    ensures bd.rx.buffer.Some? && bd.rx.mode == ReceiverModel.PacketEnd ==> bd.rx.received == 0
  {
    if bd.rx.buffer.Some? {
      BufferSize(cfg, bd);
    }
  }

  /** The byte makes the receiver lose a buffer: it completes a packet while the queue is full and
      another buffer is free, so that the refused buffer stays held and is forgotten for the new
      one. */
  ghost predicate LosesBuffer(cfg: Config, bd: Board, b: byte)
    requires BoardInv(cfg, bd)
  {
    Completes(bd, b) && QueueFull(bd.sys.p) && Acquirable(cfg, bd.sys.p, PACKET_READY).Some?
  }

  /** Nothing else loses a buffer, and a lost buffer stays lost. */
  lemma BufferLostIff(cfg: Config, bd: Board, b: byte)
    requires BoardInv(cfg, bd) && ReceiverModel.Valid(AbsRx(cfg, bd))
    ensures BoardInv(cfg, Receive(cfg, bd, b))
    ensures NothingLost(cfg, Receive(cfg, bd, b)) <==> NothingLost(cfg, bd) && !LosesBuffer(cfg, bd, b)
  {
    ByteKeepsBoard(cfg, bd, b);
    ValidPacketEnd(cfg, bd);
    if bd.rx.buffer.None? {
      ArmingLosesNothing(cfg, bd, b);
    } else if Completes(bd, b) {
      CompletionLosesIff(cfg, bd, b);
    } else {
      PlainByteLosesNothing(cfg, bd, b);
    }
  }

  /** No step of others makes the receiver hold an element. */
  lemma OthersHoldForThemselves(cfg: Config, s: Sys, ev: Event, e: nat)
    requires Inv(cfg, s) && Disciplined(cfg, s, ev) && Foreign(ev) && e < cfg.elements
    ensures |Apply(cfg, s, ev).own| == cfg.elements
    ensures Apply(cfg, s, ev).own[e] == Held(RECEIVER) <==> s.own[e] == Held(RECEIVER)
  {
    ApplyKeepsShape(cfg, s, ev);
    if s.own[e] == Held(RECEIVER) {
      HeldIsStable(cfg, s, ev, e);
    } else {
      NoNewHeld(cfg, s, ev, e);
    }
  }

  lemma NoNewHeld(cfg: Config, s: Sys, ev: Event, e: nat)
    requires WellFormed(cfg) && SysShape(cfg, s) && Callable(cfg, s, ev) && Foreign(ev)
    requires e < cfg.elements && s.own[e] != Held(RECEIVER)
    ensures e < |Apply(cfg, s, ev).own| && Apply(cfg, s, ev).own[e] != Held(RECEIVER)
  {
  }

  lemma OthersLoseNothing(cfg: Config, bd: Board, ev: Event)
    requires BoardInv(cfg, bd) && Disciplined(cfg, bd.sys, ev) && Foreign(ev)
    requires BoardInv(cfg, bd.(sys := Apply(cfg, bd.sys, ev)))
    ensures NothingLost(cfg, bd.(sys := Apply(cfg, bd.sys, ev))) <==> NothingLost(cfg, bd)
  {
    forall e | 0 <= e < cfg.elements
      ensures Apply(cfg, bd.sys, ev).own[e] == Held(RECEIVER) <==> bd.sys.own[e] == Held(RECEIVER)
    {
      OthersHoldForThemselves(cfg, bd.sys, ev, e);
    }
  }

  ghost predicate StepLoses(cfg: Config, bd: Board, be: BoardEvent)
    requires BoardInv(cfg, bd)
  {
    be.Byte? && LosesBuffer(cfg, bd, be.b)
  }

  lemma StepLosesIff(cfg: Config, bd: Board, be: BoardEvent)
    requires BoardInv(cfg, bd) && Allowed(cfg, bd, be) && ReceiverModel.Valid(AbsRx(cfg, bd))
    requires BoardInv(cfg, BoardStep(cfg, bd, be))
    ensures NothingLost(cfg, BoardStep(cfg, bd, be)) <==> NothingLost(cfg, bd) && !StepLoses(cfg, bd, be)
  {
    match be
    case Byte(b) => BufferLostIff(cfg, bd, b);
    case Other(ev) => OthersLoseNothing(cfg, bd, ev);
  }

  ghost predicate LosesNothing(cfg: Config, bd: Board, evs: seq<BoardEvent>)
    requires BoardInv(cfg, bd) && BoardRun(cfg, bd, evs)
    decreases |evs|
  {
    |evs| == 0 ||
    (!StepLoses(cfg, bd, evs[0]) &&
     (BoardStepKeepsInv(cfg, bd, evs[0]); LosesNothing(cfg, BoardStep(cfg, bd, evs[0]), evs[1..])))
  }

  /** Over every interleaved run the receiver loses a buffer exactly if some byte of the run
      completes a packet while the queue is full and another buffer is free. */
  lemma {:induction false} RunLosesIff(cfg: Config, bd: Board, evs: seq<BoardEvent>)
    requires BoardInv(cfg, bd) && BoardRun(cfg, bd, evs) && ReceiverModel.Valid(AbsRx(cfg, bd))
    ensures NothingLost(cfg, BoardAfter(cfg, bd, evs)) <==> NothingLost(cfg, bd) && LosesNothing(cfg, bd, evs)
    decreases |evs|
  {
    if |evs| > 0 {
      StepKeepsValid(cfg, bd, evs[0]);
      StepLosesIff(cfg, bd, evs[0]);
      RunLosesIff(cfg, BoardStep(cfg, bd, evs[0]), evs[1..]);
    }
  }

  /** At power-up, with the pump initialised and the first buffer asked for, all of this holds. */
  lemma PowerUp(cfg: Config, s: Sys)
    requires HasPacketPool(cfg) && IsInitial(cfg, s)
    ensures BoardShape(cfg, Board(s, Rx(None, ReceiverModel.Unknown, 0, 0)))
    ensures var bd := ResetBuffer(cfg, Board(s, Rx(None, ReceiverModel.Unknown, 0, 0)));
            && BoardInv(cfg, bd) && NothingLost(cfg, bd)
            && ReceiverModel.Valid(AbsRx(cfg, bd)) && ReceiverModel.Hunting(AbsRx(cfg, bd))
            && PacketsIn(bd.sys.posted) == []
            && (PacketPool(cfg).amount > 0 ==> bd.rx.buffer == Some(PacketPool(cfg).base))
  {
    PumpRuns.InitialInv(cfg, s);
    var off := Board(s, Rx(None, ReceiverModel.Unknown, 0, 0));
    ArmRefines(cfg, off);
    ResetOwns(cfg, off);
  }
}
