/** How much a board can take in before it must dispatch: exactly as many packets of a burst are
    posted as the packet pool has buffers and the queue has room for. */
module Burst {
  import opened Bytes
  import opened Options
  import opened Framing
  import opened PumpModel
  import opened PumpInvariant
  import opened PumpRuns
  import ReceiverModel
  import opened BoardModel
  import opened BoardRuns

  ghost function FreePackets(cfg: Config, own: seq<Owner>): nat
    requires HasPacketPool(cfg) && |own| == cfg.elements
  {
    Count(own, PacketPool(cfg).base, PacketPool(cfg).base + PacketPool(cfg).amount, KFree)
  }

  /** The packet buffers that the receiver has or can get. */
  ghost function Reserve(cfg: Config, bd: Board): nat
    requires BoardShape(cfg, bd)
  {
    FreePackets(cfg, bd.sys.own) + if bd.rx.buffer.Some? then 1 else 0
  }

  function Room(s: Sys): int {
    QUEUE_MAX - (|s.posted| - s.done)
  }

  /** How many packets more can be posted if nothing is dispatched. */
  ghost function Capacity(cfg: Config, bd: Board): nat
    requires BoardShape(cfg, bd)
  {
    if Room(bd.sys) < 0 then 0
    else if Reserve(cfg, bd) < Room(bd.sys) then Reserve(cfg, bd) else Room(bd.sys)
  }

  lemma {:induction false} CountUpdate(own: seq<Owner>, lo: nat, hi: nat, e: nat, o: Owner, k: Kind)
    requires lo <= hi <= |own| && e < |own|
    ensures Count(own[e := o], lo, hi, k) + (if lo <= e < hi && KindOf(own[e]) == k then 1 else 0)
         == Count(own, lo, hi, k) + (if lo <= e < hi && KindOf(o) == k then 1 else 0)
    decreases hi - lo
  {
    if lo < hi {
      CountUpdate(own, lo + 1, hi, e, o, k);
    }
  }

  lemma {:induction false} CountAllFree(own: seq<Owner>, lo: nat, hi: nat)
    requires lo <= hi <= |own| && forall e :: lo <= e < hi ==> own[e] == Free
    ensures Count(own, lo, hi, KFree) == hi - lo
    decreases hi - lo
  {
    if lo < hi {
      CountAllFree(own, lo + 1, hi);
    }
  }

  /** What reserve and room say about the pump's answers. */
  lemma ReserveMeansOk(cfg: Config, bd: Board)
    requires BoardInv(cfg, bd)
    ensures FreePackets(cfg, bd.sys.own) > 0 <==> Acquirable(cfg, bd.sys.p, PACKET_READY).Some?
    ensures 0 <= Room(bd.sys) && (Room(bd.sys) > 0 <==> !QueueFull(bd.sys.p))
  {
    FullIff(cfg, bd.sys);
    AcquirableIff(cfg, bd.sys, Lookup(cfg, PACKET_READY).value);
  }

  /** Acquiring takes one free packet buffer, whatever else changes hands. */
  lemma ResetTakesOne(cfg: Config, bd: Board, own: seq<Owner>, e: nat)
    requires BoardShape(cfg, bd) && |own| == cfg.elements && Acquirable(cfg, bd.sys.p, PACKET_READY) == Some(e)
    requires InPacketPool(cfg, e) && own[e] == Free
    ensures FreePackets(cfg, OwnAfterReset(cfg, bd, own)) == FreePackets(cfg, own) - 1
  {
    CountUpdate(own, PacketPool(cfg).base, PacketPool(cfg).base + PacketPool(cfg).amount, e, Held(RECEIVER), KFree);
  }

  // ---- What one byte costs ----

  lemma ResetCost(cfg: Config, bd: Board)
    requires BoardInv(cfg, bd) && bd.rx.buffer.None?
    ensures Reserve(cfg, ResetBuffer(cfg, bd)) == Reserve(cfg, bd)
  {
    ResetOwns(cfg, bd);
    if Acquirable(cfg, bd.sys.p, PACKET_READY).Some? {
      AcquirableIsFree(cfg, bd);
      ResetTakesOne(cfg, bd, bd.sys.own, Acquirable(cfg, bd.sys.p, PACKET_READY).value);
    }
  }

  lemma ArmingCost(cfg: Config, bd: Board, b: byte)
    requires BoardInv(cfg, bd) && bd.rx.buffer.None?
    ensures Reserve(cfg, Receive(cfg, bd, b)) == Reserve(cfg, bd)
  {
    ResetCost(cfg, bd);
    var armed := ResetBuffer(cfg, bd);
    if armed.rx.buffer.Some? {
      HandleOwns(cfg, armed, b);
    }
  }

  /** The free buffers when `own` is what a completed packet leaves before the next reset. */
  lemma CompletionTakes(cfg: Config, bd: Board, e: nat, own: seq<Owner>)
    requires BoardInv(cfg, bd) && e < cfg.elements && bd.sys.own[e] == Held(RECEIVER)
    requires own == bd.sys.own || own == bd.sys.own[e := Queued]
    ensures FreePackets(cfg, OwnAfterReset(cfg, bd, own)) ==
            FreePackets(cfg, bd.sys.own) - if Acquirable(cfg, bd.sys.p, PACKET_READY).Some? then 1 else 0
  {
    CountUpdate(bd.sys.own, PacketPool(cfg).base, PacketPool(cfg).base + PacketPool(cfg).amount, e, Queued, KFree);
    if Acquirable(cfg, bd.sys.p, PACKET_READY).Some? {
      AcquirableIsFree(cfg, bd);
      ResetTakesOne(cfg, bd, own, Acquirable(cfg, bd.sys.p, PACKET_READY).value);
    }
  }

  /** A completed packet costs a buffer, queued or lost, unless the queue is full and no other
      buffer is free. */
  lemma CompletionCost(cfg: Config, bd: Board, b: byte)
    requires BoardInv(cfg, bd) && Completes(bd, b)
    ensures Reserve(cfg, Receive(cfg, bd, b)) == Reserve(cfg, bd) -
            if QueueFull(bd.sys.p) && Acquirable(cfg, bd.sys.p, PACKET_READY).None? then 0 else 1
  {
    CompletionOwns(cfg, bd, b);
    var e := bd.rx.buffer.value;
    CompletionTakes(cfg, bd, e, if QueueFull(bd.sys.p) then bd.sys.own else bd.sys.own[e := Queued]);
  }

  /** What one byte costs, exactly: a byte that completes a packet costs a buffer, unless nothing
      is left, and a place in the queue, unless it is full; every other byte costs nothing. */
  lemma ByteCost(cfg: Config, bd: Board, b: byte)
    requires BoardInv(cfg, bd) && ReceiverModel.Valid(AbsRx(cfg, bd))
    ensures var full, free := QueueFull(bd.sys.p), Acquirable(cfg, bd.sys.p, PACKET_READY).Some?;
            && Reserve(cfg, Receive(cfg, bd, b)) ==
               Reserve(cfg, bd) - (if Completes(bd, b) && (!full || free) then 1 else 0)
            && Room(Receive(cfg, bd, b).sys) == Room(bd.sys) - if Completes(bd, b) && !full then 1 else 0
  {
    ValidPacketEnd(cfg, bd);
    RoomCost(cfg, bd, b);
    if bd.rx.buffer.None? {
      ArmingCost(cfg, bd, b);
    } else if Completes(bd, b) {
      CompletionCost(cfg, bd, b);
    } else {
      HandleOwns(cfg, bd, b);
    }
  }

  lemma RoomCost(cfg: Config, bd: Board, b: byte)
    requires BoardInv(cfg, bd) && ReceiverModel.Valid(AbsRx(cfg, bd))
    ensures Room(Receive(cfg, bd, b).sys) == Room(bd.sys) - if Completes(bd, b) && !QueueFull(bd.sys.p) then 1 else 0
  {
    ReceiveRefines(cfg, bd, b);
    CompletesRefines(cfg, bd, b);
    ReceiverModel.PostsIff(AbsRx(cfg, bd), ReceiverModel.Input(b, EnvOf(cfg, bd)));
  }

  // ---- Bursts ----

  /** A run of received bytes and nothing else. */
  function Received(bytes: seq<byte>): (evs: seq<BoardEvent>)
    ensures |evs| == |bytes|
  {
    seq(|bytes|, i requires 0 <= i < |bytes| => Byte(bytes[i]))
  }

  lemma ReceivedCons(bytes: seq<byte>)
    requires |bytes| > 0
    ensures Received(bytes)[0] == Byte(bytes[0]) && Received(bytes)[1..] == Received(bytes[1..])
  {
  }

  lemma {:induction false} ReceivedRuns(cfg: Config, bd: Board, bytes: seq<byte>)
    requires BoardInv(cfg, bd)
    ensures BoardRun(cfg, bd, Received(bytes))
    decreases |bytes|
  {
    if |bytes| > 0 {
      ReceivedCons(bytes);
      BoardStepKeepsInv(cfg, bd, Byte(bytes[0]));
      ReceivedRuns(cfg, BoardStep(cfg, bd, Byte(bytes[0])), bytes[1..]);
    }
  }

  /** The board behind a burst of bytes during which nothing else happens. */
  ghost function BurstAfter(cfg: Config, bd: Board, bytes: seq<byte>): (r: Board)
    requires BoardInv(cfg, bd)
    ensures BoardInv(cfg, r)
  {
    ReceivedRuns(cfg, bd, bytes);
    BoardAfter(cfg, bd, Received(bytes))
  }

  lemma BurstCons(cfg: Config, bd: Board, bytes: seq<byte>)
    requires BoardInv(cfg, bd) && |bytes| > 0
    ensures BoardInv(cfg, Receive(cfg, bd, bytes[0]))
    ensures BurstAfter(cfg, bd, bytes) == BurstAfter(cfg, Receive(cfg, bd, bytes[0]), bytes[1..])
  {
    ReceivedCons(bytes);
    BoardStepKeepsInv(cfg, bd, Byte(bytes[0]));
    ReceivedRuns(cfg, bd, bytes);
  }

  /** The packets of a burst as the receiver alone reads them, if the pump grants everything. */
  ghost function PacketsOf(cfg: Config, bd: Board, bytes: seq<byte>): seq<Packet>
    requires BoardShape(cfg, bd)
  {
    ReceiverModel.Run(AbsRx(cfg, bd), ReceiverModel.Ok(bytes)).posted
  }

  lemma PacketsCons(cfg: Config, bd: Board, bytes: seq<byte>)
    requires BoardShape(cfg, bd) && |bytes| > 0
    ensures var first := ReceiverModel.Step(AbsRx(cfg, bd), ReceiverModel.Input(bytes[0], ReceiverModel.ALL_OK));
            && PacketsOf(cfg, bd, bytes) ==
               first.posted + ReceiverModel.Run(first.state, ReceiverModel.Ok(bytes[1..])).posted
            && ReceiverModel.Run(AbsRx(cfg, bd), ReceiverModel.Ok(bytes)).state
               == ReceiverModel.Run(first.state, ReceiverModel.Ok(bytes[1..])).state
  {
    assert [bytes[0]] + bytes[1..] == bytes;
    OkCons(bytes[0], bytes[1..]);
    var i := ReceiverModel.Input(bytes[0], ReceiverModel.ALL_OK);
    RunCons(AbsRx(cfg, bd), i, ReceiverModel.Ok(bytes[1..]));
  }

  /** The pump has the buffers that the byte needs. */
  ghost predicate Granted(cfg: Config, bd: Board, b: byte)
    requires BoardShape(cfg, bd)
  {
    var free := Acquirable(cfg, bd.sys.p, PACKET_READY).Some?;
    (bd.rx.buffer.Some? || free) && (Completes(bd, b) ==> free)
  }

  /** One byte of a burst: what it posts, and where it leaves the receiver if the pump has granted
      what it needs. */
  lemma BurstByte(cfg: Config, bd: Board, b: byte)
    requires BoardInv(cfg, bd) && ReceiverModel.Valid(AbsRx(cfg, bd))
    ensures var next := Receive(cfg, bd, b);
            var first := ReceiverModel.Step(AbsRx(cfg, bd), ReceiverModel.Input(b, ReceiverModel.ALL_OK));
            && BoardInv(cfg, next) && ReceiverModel.Valid(AbsRx(cfg, next))
            && PacketsIn(next.sys.posted) ==
               PacketsIn(bd.sys.posted) + (if QueueFull(bd.sys.p) then [] else first.posted)
            && |first.posted| == (if Completes(bd, b) then 1 else 0)
            && (Granted(cfg, bd, b) ==> AbsRx(cfg, next) == first.state)
  {
    var s, env := AbsRx(cfg, bd), EnvOf(cfg, bd);
    StepKeepsValid(cfg, bd, Byte(b));
    ByteKeepsBoard(cfg, bd, b);
    CompletesRefines(cfg, bd, b);
    ReceiverModel.PostsIff(s, ReceiverModel.Input(b, env));
    ReceiverModel.PostsIff(s, ReceiverModel.Input(b, ReceiverModel.ALL_OK));
    if Granted(cfg, bd, b) {
      ReceiverModel.StateIgnoresEnv(s, b, env);
    }
  }

  function Take(ps: seq<Packet>, n: nat): (r: seq<Packet>)
    ensures r <= ps && |r| == if n < |ps| then n else |ps|
    ensures r == ps <==> |ps| <= n
  {
    if n < |ps| then ps[..n] else ps
  }

  /** What remains of the capacity behind a byte. */
  lemma CapacityStep(cfg: Config, bd: Board, b: byte)
    requires BoardInv(cfg, bd) && ReceiverModel.Valid(AbsRx(cfg, bd))
    ensures var n, m, c := Capacity(cfg, bd), Capacity(cfg, Receive(cfg, bd, b)), if Completes(bd, b) then 1 else 0;
            && (n == 0 ==> m == 0 && (QueueFull(bd.sys.p) || c == 0))
            && (n > 0 ==> m + c == n && !QueueFull(bd.sys.p))
            && (m > 0 ==> Granted(cfg, bd, b))
  {
    ReserveMeansOk(cfg, bd);
    ByteCost(cfg, bd, b);
  }

  lemma TakeStep(p: seq<Packet>, later: seq<Packet>, rest: seq<Packet>, n: nat, m: nat)
    requires if n == 0 then m == 0 else m + |p| == n && (m > 0 ==> rest == later)
    ensures (if n == 0 then [] else p) + Take(rest, m) == Take(p + later, n)
  {
  }

  /** The packets of a burst that are posted are the first ones, as many as the board has capacity
      for. */
  lemma {:induction false} BurstPosts(cfg: Config, bd: Board, bytes: seq<byte>)
    requires BoardInv(cfg, bd) && ReceiverModel.Valid(AbsRx(cfg, bd))
    ensures PacketsIn(BurstAfter(cfg, bd, bytes).sys.posted)
         == PacketsIn(bd.sys.posted) + Take(PacketsOf(cfg, bd, bytes), Capacity(cfg, bd))
    decreases |bytes|
  {
    if |bytes| > 0 {
      var b, rest := bytes[0], bytes[1..];
      var next := Receive(cfg, bd, b);
      var first := ReceiverModel.Step(AbsRx(cfg, bd), ReceiverModel.Input(b, ReceiverModel.ALL_OK));
      var n, m := Capacity(cfg, bd), Capacity(cfg, next);
      BurstByte(cfg, bd, b);
      CapacityStep(cfg, bd, b);
      BurstCons(cfg, bd, bytes);
      PacketsCons(cfg, bd, bytes);
      BurstPosts(cfg, next, rest);
      TakeStep(first.posted, ReceiverModel.Run(first.state, ReceiverModel.Ok(rest)).posted,
               PacketsOf(cfg, next, rest), n, m);
      Assoc(PacketsIn(bd.sys.posted), if n == 0 then [] else first.posted, Take(PacketsOf(cfg, next, rest), m));
    }
  }

  /** A burst within the capacity, with a buffer to spare, uses up exactly what it posts and leaves
      the receiver where the stream alone leads it, so that another burst can follow. */
  lemma {:induction false} BurstFits(cfg: Config, bd: Board, bytes: seq<byte>)
    requires BoardInv(cfg, bd) && ReceiverModel.Valid(AbsRx(cfg, bd))
    requires Reserve(cfg, bd) > |PacketsOf(cfg, bd, bytes)| && Room(bd.sys) >= |PacketsOf(cfg, bd, bytes)|
    ensures var t, n := BurstAfter(cfg, bd, bytes), |PacketsOf(cfg, bd, bytes)|;
            && AbsRx(cfg, t) == ReceiverModel.Run(AbsRx(cfg, bd), ReceiverModel.Ok(bytes)).state
            && Reserve(cfg, t) == Reserve(cfg, bd) - n && Room(t.sys) == Room(bd.sys) - n
            && PacketsIn(t.sys.posted) == PacketsIn(bd.sys.posted) + PacketsOf(cfg, bd, bytes)
    decreases |bytes|
  {
    BurstPosts(cfg, bd, bytes);
    if |bytes| > 0 {
      ReserveMeansOk(cfg, bd);
      BurstByte(cfg, bd, bytes[0]);
      ByteCost(cfg, bd, bytes[0]);
      PacketsCons(cfg, bd, bytes);
      BurstCons(cfg, bd, bytes);
      BurstFits(cfg, Receive(cfg, bd, bytes[0]), bytes[1..]);
    }
  }

  /** A burst loses a buffer exactly if it has more packets than the queue has room for, and the
      packet pool still has a second buffer when the queue is full. */
  lemma {:induction false} BurstLosesIff(cfg: Config, bd: Board, bytes: seq<byte>)
    requires BoardInv(cfg, bd) && ReceiverModel.Valid(AbsRx(cfg, bd))
    ensures NothingLost(cfg, BurstAfter(cfg, bd, bytes)) <==>
            NothingLost(cfg, bd) &&
            (|PacketsOf(cfg, bd, bytes)| <= Room(bd.sys) || Reserve(cfg, bd) <= Room(bd.sys) + 1)
    decreases |bytes|
  {
    ReserveMeansOk(cfg, bd);
    if |bytes| > 0 {
      BurstByte(cfg, bd, bytes[0]);
      BufferLostIff(cfg, bd, bytes[0]);
      ByteCost(cfg, bd, bytes[0]);
      PacketsCons(cfg, bd, bytes);
      BurstCons(cfg, bd, bytes);
      BurstLosesIff(cfg, Receive(cfg, bd, bytes[0]), bytes[1..]);
    }
  }

  /** A board outside a packet posts exactly the packets that the stream decoder reads, up to its
      capacity; so it posts them all exactly if they are no more than that. */
  lemma BurstIsDecoded(cfg: Config, bd: Board, bytes: seq<byte>)
    requires BoardInv(cfg, bd) && ReceiverModel.Hunting(AbsRx(cfg, bd))
    ensures var t := BurstAfter(cfg, bd, bytes);
            && PacketsIn(t.sys.posted) == PacketsIn(bd.sys.posted) + Take(Decode(bytes), Capacity(cfg, bd))
            && (PacketsIn(t.sys.posted) == PacketsIn(bd.sys.posted) + Decode(bytes) <==>
                  |Decode(bytes)| <= Reserve(cfg, bd) && |Decode(bytes)| <= Room(bd.sys))
  {
    HuntingIsValid(cfg, bd);
    ReceiverModel.ReceiverDecodes(AbsRx(cfg, bd), bytes);
    BurstPosts(cfg, bd, bytes);
    CapacityIs(cfg, bd, |Decode(bytes)|);
    TakeWhole(PacketsIn(bd.sys.posted), Decode(bytes), Capacity(cfg, bd));
  }

  lemma CapacityIs(cfg: Config, bd: Board, n: nat)
    requires BoardInv(cfg, bd)
    ensures n <= Capacity(cfg, bd) <==> n <= Reserve(cfg, bd) && n <= Room(bd.sys)
  {
    ReserveMeansOk(cfg, bd);
  }

  lemma TakeWhole(before: seq<Packet>, ps: seq<Packet>, n: nat)
    ensures before + Take(ps, n) == before + ps <==> |ps| <= n
  {
    assert |before + Take(ps, n)| == |before| + |Take(ps, n)|;
  }

  // ---- From power-up ----

  function Off(s: Sys): Board {
    Board(s, Rx(None, ReceiverModel.Unknown, 0, 0))
  }

  lemma StartReserve(cfg: Config, s: Sys)
    requires HasPacketPool(cfg) && IsInitial(cfg, s)
    ensures BoardShape(cfg, Off(s))
    ensures var bd := ResetBuffer(cfg, Off(s));
            Reserve(cfg, bd) == PacketPool(cfg).amount && Room(bd.sys) == QUEUE_MAX
  {
    InitialInv(cfg, s);
    CountAllFree(s.own, PacketPool(cfg).base, PacketPool(cfg).base + PacketPool(cfg).amount);
    ResetCost(cfg, Off(s));
    ArmRefines(cfg, Off(s));
  }

  /** A board that has just started posts all packets of its first burst exactly if they are no
      more than the queue and the packet pool can hold; of more it posts the first ones. It loses
      a buffer exactly if they are more than the queue holds and the pool has two buffers more
      than that. */
  lemma FirstBurst(cfg: Config, s: Sys, bytes: seq<byte>)
    requires HasPacketPool(cfg) && IsInitial(cfg, s)
    ensures BoardShape(cfg, Off(s)) && BoardInv(cfg, ResetBuffer(cfg, Off(s)))
    ensures var t := BurstAfter(cfg, ResetBuffer(cfg, Off(s)), bytes);
            && PacketsIn(t.sys.posted) ==
               Take(Decode(bytes), if PacketPool(cfg).amount < QUEUE_MAX then PacketPool(cfg).amount else QUEUE_MAX)
            && (PacketsIn(t.sys.posted) == Decode(bytes) <==>
                  |Decode(bytes)| <= QUEUE_MAX && |Decode(bytes)| <= PacketPool(cfg).amount)
            && (NothingLost(cfg, t) <==> |Decode(bytes)| <= QUEUE_MAX || PacketPool(cfg).amount <= QUEUE_MAX + 1)
  {
    PowerUp(cfg, s);
    StartReserve(cfg, s);
    var bd := ResetBuffer(cfg, Off(s));
    BurstIsDecoded(cfg, bd, bytes);
    BurstLosesIff(cfg, bd, bytes);
    ReceiverModel.ReceiverDecodes(AbsRx(cfg, bd), bytes);
    var n := Capacity(cfg, bd);
    assert [] + Take(Decode(bytes), n) == Take(Decode(bytes), n) && [] + Decode(bytes) == Decode(bytes);
  }

  /** For instance 17 messages in a row, of any contents: the first 16 are posted, the last one is
      lost, and a buffer with it. */
  lemma SeventeenFrames(cfg: Config, s: Sys, ms: seq<Packet>)
    requires HasPacketPool(cfg) && IsInitial(cfg, s) && PacketPool(cfg).amount >= 18
    requires |ms| == 17 && forall m :: m in ms ==> |m.payload| <= 125
    ensures BoardShape(cfg, Off(s)) && BoardInv(cfg, ResetBuffer(cfg, Off(s)))
    ensures var bd := ResetBuffer(cfg, Off(s));
            var before, after := BurstAfter(cfg, bd, EncodeAll(ms[..16])), BurstAfter(cfg, bd, EncodeAll(ms));
            && PacketsIn(before.sys.posted) == PacketsIn(after.sys.posted) == ms[..16]
            && NothingLost(cfg, before) && !NothingLost(cfg, after)
  {
    DecodeEncodeAll(ms);
    DecodeEncodeAll(ms[..16]);
    FirstBurst(cfg, s, EncodeAll(ms));
    FirstBurst(cfg, s, EncodeAll(ms[..16]));
  }

  // ---- The same for a chunk that an interface hands over ----

  lemma BurstOfNothing(cfg: Config, bd: Board)
    requires BoardInv(cfg, bd)
    ensures BurstAfter(cfg, bd, []) == bd
  {
  }

  /** Receiving a chunk is a burst of its bytes. */
  lemma {:induction false} ChunkIsBurst(cfg: Config, bd: Board, bytes: seq<byte>)
    requires BoardInv(cfg, bd)
    ensures ReceiveAll(cfg, bd, bytes) == BurstAfter(cfg, bd, bytes)
    decreases |bytes|
  {
    if |bytes| == 0 {
      BurstOfNothing(cfg, bd);
    } else {
      BurstCons(cfg, bd, bytes);
      ChunkIsBurst(cfg, Receive(cfg, bd, bytes[0]), bytes[1..]);
    }
  }
}
