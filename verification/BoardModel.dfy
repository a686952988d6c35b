/** The protocol receiver as a client of the message pump: it acquires a packet buffer from the
    pump, fills it byte by byte and posts it. Here the receiver of `ReceiverModel` meets the
    pump of `PumpModel`, and everything else that uses the pump may run between two bytes. */
module BoardModel {
  import opened Bytes
  import opened Options
  import opened Framing
  import opened PumpModel
  import opened PumpInvariant
  import PumpRuns
  import ReceiverModel

  const PACKET_READY := -1
  const RECEIVER: nat := 0
  const INTERFACE: byte := 0

  /** A packet buffer in memory: two bytes payload length, low byte first, then the interface,
      the id, and 128 bytes of packet. */
  const PACKET_SIZE := 132
  const AT_INTERFACE := 2
  const AT_ID := 3
  const AT_PACKET := 4

  datatype Rx = Rx(buffer: Option<nat>, mode: ReceiverModel.Mode, received: nat, checkSum: byte)

  datatype Board = Board(sys: Sys, rx: Rx)

  ghost predicate HasPacketPool(cfg: Config) {
    && WellFormed(cfg)
    && Lookup(cfg, PACKET_READY).Some?
    && PoolOk(cfg, PacketPool(cfg))
    && PacketPool(cfg).msgSize == PACKET_SIZE
  }

  function PacketPool(cfg: Config): Pool
    requires Lookup(cfg, PACKET_READY).Some?
  {
    cfg.pools[Lookup(cfg, PACKET_READY).value]
  }

  /** What must hold for the C code to stay inside its buffers. */
  ghost predicate BoardShape(cfg: Config, bd: Board) {
    && HasPacketPool(cfg) && SysShape(cfg, bd.sys)
    && bd.rx.received <= MAX_PACKET_LEN
    && (bd.rx.buffer.Some? ==>
          PacketPool(cfg).base <= bd.rx.buffer.value < PacketPool(cfg).base + PacketPool(cfg).amount)
  }

  lemma BufferSize(cfg: Config, bd: Board)
    requires BoardShape(cfg, bd) && bd.rx.buffer.Some?
    ensures bd.rx.buffer.value < cfg.elements
    ensures |bd.sys.p.data[bd.rx.buffer.value]| == PACKET_SIZE
  {
    assert PoolData(bd.sys.p.data, PacketPool(cfg));
  }

  function BufferAddr(cfg: Config, e: nat): int
    requires Lookup(cfg, PACKET_READY).Some? && PacketPool(cfg).base <= e
  {
    PayloadAddr(cfg, PacketPool(cfg), e - PacketPool(cfg).base)
  }

  // ---- The receiver's steps on the pump ----

  /** Nothing has happened that concerns the dispatcher. */
  predicate Quiet(s: Sys, t: Sys) {
    t.done == s.done && t.p.pc == s.p.pc && t.p.receivers == s.p.receivers && t.visits == s.visits
  }

  ghost function Put(cfg: Config, s: Sys, e: nat, at: nat, b: byte): (t: Sys)
    requires WellFormed(cfg) && SysShape(cfg, s) && e < cfg.elements && at < |s.p.data[e]|
    ensures SysShape(cfg, t) && Quiet(s, t)
  {
    FillKeepsShape(cfg, s.p, e, s.p.data[e][at := b]);
    Apply(cfg, s, Fill(RECEIVER, e, s.p.data[e][at := b]))
  }

  function ClearedPacket(bytes: seq<byte>): (r: seq<byte>)
    requires |bytes| == PACKET_SIZE
    ensures |r| == PACKET_SIZE
  {
    bytes[AT_INTERFACE := INTERFACE][0 := 0][1 := 0][AT_ID := 0]
  }

  ghost function ResetBuffer(cfg: Config, bd: Board): (r: Board)
    requires BoardShape(cfg, bd)
    ensures BoardShape(cfg, r) && Quiet(bd.sys, r.sys)
  {
    var e := Acquirable(cfg, bd.sys.p, PACKET_READY);
    ApplyKeepsShape(cfg, bd.sys, GetFree(RECEIVER, PACKET_READY));
    var s := GetFreeStep(cfg, bd.sys, RECEIVER, PACKET_READY);
    if e.Some? then
      assert PoolData(s.p.data, PacketPool(cfg));
      var cleared := ClearedPacket(s.p.data[e.value]);
      FillKeepsShape(cfg, s.p, e.value, cleared);
      Board(Apply(cfg, s, Fill(RECEIVER, e.value, cleared)), Rx(e, ReceiverModel.Unknown, 0, 0))
    else
      Board(s, Rx(bd.rx.buffer, ReceiverModel.Unknown, 0, 0))
  }

  /** A received byte that belongs to the packet: the id first, then the packet bytes. */
  ghost function Store(cfg: Config, bd: Board, b: byte): (r: Board)
    requires BoardShape(cfg, bd) && bd.rx.buffer.Some? && bd.rx.received < MAX_PACKET_LEN
    ensures BoardShape(cfg, r) && Quiet(bd.sys, r.sys)
  {
    BufferSize(cfg, bd);
    Board(Put(cfg, bd.sys, bd.rx.buffer.value, AT_ID + bd.rx.received, b),
          bd.rx.(mode := ReceiverModel.Payload, received := bd.rx.received + 1))
  }

  lemma OwnBufferIsElement(cfg: Config, e: nat)
    requires HasPacketPool(cfg)
    requires PacketPool(cfg).base <= e < PacketPool(cfg).base + PacketPool(cfg).amount
    ensures 0 <= BufferAddr(cfg, e) < ADDRESSES
    ensures Classify(cfg, PacketPool(cfg), BufferAddr(cfg, e)) == Element(e - PacketPool(cfg).base)
  {
    assert InMemory(cfg, cfg.pools[Lookup(cfg, PACKET_READY).value]);
    PayloadInPool(cfg, PacketPool(cfg), e - PacketPool(cfg).base);
    ClassifyIff(cfg, PacketPool(cfg), BufferAddr(cfg, e), e - PacketPool(cfg).base);
  }

  ghost predicate InPacketPool(cfg: Config, e: nat) {
    HasPacketPool(cfg) && PacketPool(cfg).base <= e < PacketPool(cfg).base + PacketPool(cfg).amount
  }

  /** Posting a packet buffer by its address. */
  ghost function PostBuffer(cfg: Config, s: Sys, e: nat): (t: Sys)
    requires InPacketPool(cfg, e) && SysShape(cfg, s)
    ensures SysShape(cfg, t) && Quiet(s, t)
  {
    OwnBufferIsElement(cfg, e);
    PostKeepsShape(cfg, s.p, PACKET_READY, BufferAddr(cfg, e), []);
    PostStep(cfg, s, PACKET_READY, BufferAddr(cfg, e), [])
  }

  ghost predicate PostSucceeds(cfg: Config, s: Sys, e: nat)
    requires InPacketPool(cfg, e) && SysShape(cfg, s)
  {
    OwnBufferIsElement(cfg, e);
    Post(cfg, s.p, PACKET_READY, BufferAddr(cfg, e), []).element.Some?
  }

  ghost function PutLength(cfg: Config, s: Sys, e: nat, len: byte): (t: Sys)
    requires WellFormed(cfg) && SysShape(cfg, s) && e < cfg.elements && |s.p.data[e]| == PACKET_SIZE
    ensures SysShape(cfg, t) && Quiet(s, t)
  {
    Put(cfg, Put(cfg, s, e, 0, len), e, 1, 0)
  }

  /** Fills in the payload length and posts the buffer, then asks for the next one. */
  ghost function PostPacket(cfg: Config, bd: Board): (r: Board)
    requires BoardShape(cfg, bd) && bd.rx.buffer.Some? && bd.rx.received >= 2
    ensures BoardShape(cfg, r) && Quiet(bd.sys, r.sys)
  {
    BufferSize(cfg, bd);
    var e := bd.rx.buffer.value;
    var s := PutLength(cfg, bd.sys, e, bd.rx.received - 2);
    ResetBuffer(cfg, Board(PostBuffer(cfg, s, e),
                           if PostSucceeds(cfg, s, e) then bd.rx.(buffer := None) else bd.rx))
  }

  /** A packet whose bytes sum to 0 is posted, if it holds at least an id and a check byte. */
  ghost function Complete(cfg: Config, bd: Board): (r: Board)
    requires BoardShape(cfg, bd) && bd.rx.buffer.Some?
    ensures BoardShape(cfg, r) && Quiet(bd.sys, r.sys)
  {
    BufferSize(cfg, bd);
    var marked := bd.(sys := Put(cfg, bd.sys, bd.rx.buffer.value, AT_INTERFACE, INTERFACE));
    if bd.rx.received >= 2 then PostPacket(cfg, marked) else marked.(rx := marked.rx.(mode := ReceiverModel.Unknown))
  }

  ghost function FinishPacket(cfg: Config, bd: Board): (r: Board)
    requires BoardShape(cfg, bd) && bd.rx.buffer.Some?
    ensures BoardShape(cfg, r) && Quiet(bd.sys, r.sys)
  {
    if bd.rx.checkSum != 0 then bd.(rx := bd.rx.(checkSum := 0, received := 0))
    else
      var after := Complete(cfg, bd);
      after.(rx := after.rx.(checkSum := 0, received := 0))
  }

  ghost function Handle(cfg: Config, bd: Board, b: byte): (r: Board)
    requires BoardShape(cfg, bd) && bd.rx.buffer.Some?
    ensures BoardShape(cfg, r) && Quiet(bd.sys, r.sys)
  {
    var rx := bd.rx;
    if rx.mode != ReceiverModel.Escaped && b == BEGIN then
      bd.(rx := Rx(rx.buffer, ReceiverModel.Payload, 0, 0))
    else
      var mode := if rx.mode != ReceiverModel.Escaped && b == END then ReceiverModel.PacketEnd else rx.mode;
      if rx.received >= MAX_PACKET_LEN then bd.(rx := rx.(mode := ReceiverModel.Unknown))
      else
        var summed := bd.(rx := rx.(mode := mode, checkSum := Add8(rx.checkSum, b)));
        match mode
        case Payload =>
          if b == ESCAPE then summed.(rx := summed.rx.(mode := ReceiverModel.Escaped))
          else Store(cfg, summed, b)
        case Escaped => Store(cfg, summed, b)
        case PacketEnd =>
          FinishPacket(cfg, summed.(rx := summed.rx.(checkSum := Sub8(summed.rx.checkSum, END))))
        case Unknown => summed
  }

  /** One received byte. */
  ghost function Receive(cfg: Config, bd: Board, b: byte): (r: Board)
    requires BoardShape(cfg, bd)
    ensures BoardShape(cfg, r) && Quiet(bd.sys, r.sys)
  {
    var armed := if bd.rx.buffer.None? then ResetBuffer(cfg, bd) else bd;
    if armed.rx.buffer.None? then armed else Handle(cfg, armed, b)
  }

  /** A chunk of received bytes, one after the other. */
  ghost function ReceiveAll(cfg: Config, bd: Board, data: seq<byte>): (r: Board)
    requires BoardShape(cfg, bd)
    ensures BoardShape(cfg, r) && Quiet(bd.sys, r.sys)
    decreases |data|
  {
    if |data| == 0 then bd
    else ReceiveAll(cfg, Receive(cfg, bd, data[0]), data[1..])
  }

  // ---- Ownership ----

  ghost predicate BoardInv(cfg: Config, bd: Board) {
    && BoardShape(cfg, bd)
    && Inv(cfg, bd.sys)
    && match bd.rx.buffer
       case Some(e) => e < cfg.elements && bd.sys.own[e] == Held(RECEIVER)
       case None => bd.rx.mode == ReceiverModel.Unknown && bd.rx.received == 0
  }

  /** Receiver and pump: the receiver's buffer, if it has one, is an element of the packet pool
      with count 1 that is in use and not in the queue; without one it is waiting for a BEGIN. */
  lemma ReceiverOwnsItsBuffer(cfg: Config, bd: Board)
    requires BoardInv(cfg, bd)
    ensures match bd.rx.buffer
            case None => bd.rx.mode == ReceiverModel.Unknown
            case Some(e) =>
              && PacketPool(cfg).base <= e < PacketPool(cfg).base + PacketPool(cfg).amount
              && e < cfg.elements
              && bd.sys.p.hdr[e] == Header(MAGIC, 1, InUse)
              && !PumpRuns.InQueue(bd.sys, e)
  {
    if bd.rx.buffer.Some? {
      var e := bd.rx.buffer.value;
      PumpRuns.OwnershipFromBits(cfg, bd.sys, e);
      assert HeaderOk(bd.sys.p.hdr[e], bd.sys.own[e], bd.sys.locks[e], bd.sys.p.pc);
    }
  }

  // ---- The abstraction to ReceiverModel ----

  /** The state of `ReceiverModel` that the buffer memory and the receiver's variables stand for. */
  ghost function AbsRx(cfg: Config, bd: Board): ReceiverModel.State
    requires BoardShape(cfg, bd)
  {
    match bd.rx.buffer
    case None => ReceiverModel.State(false, bd.rx.mode, [], bd.rx.checkSum)
    case Some(e) =>
      BufferSize(cfg, bd);
      ReceiverModel.State(true, bd.rx.mode, bd.sys.p.data[e][AT_ID..AT_ID + bd.rx.received], bd.rx.checkSum)
  }

  /** What the pump answers to the receiver in this state: whether the packet pool has a free
      element, and whether the queue has room. Posting frees nothing, so the answer to the
      acquisition behind a post is the same. */
  ghost function EnvOf(cfg: Config, bd: Board): ReceiverModel.Env
    requires BoardShape(cfg, bd)
  {
    var free := Acquirable(cfg, bd.sys.p, PACKET_READY).Some?;
    ReceiverModel.Env(free, !QueueFull(bd.sys.p), free)
  }

  /** The packet that the bytes of a posted packet buffer mean to the dispatcher. */
  function PayloadLen(bytes: seq<byte>): nat
    requires |bytes| == PACKET_SIZE
  {
    var low: nat, high: nat := bytes[0], bytes[1];
    low + 256 * high
  }

  function PacketOf(bytes: seq<byte>): Packet
    requires |bytes| == PACKET_SIZE
  {
    if PayloadLen(bytes) <= MAX_PACKET_LEN then
      Packet(bytes[AT_ID], bytes[AT_PACKET..AT_PACKET + PayloadLen(bytes)])
    else Packet(bytes[AT_ID], [])
  }

  // ---- Refinement: one byte ----

  /** What a step posted: nothing, or one message that means one packet. */
  ghost predicate Posted(s: Sys, s': Sys, packets: seq<Packet>) {
    if packets == [] then s'.posted == s.posted
    else
      && |packets| == 1 && |s'.posted| == |s.posted| + 1
      && s'.posted[..|s.posted|] == s.posted
      && MeansPacket(s'.posted[|s.posted|], packets[0])
  }

  predicate MeansPacket(m: Message, packet: Packet) {
    m.id == PACKET_READY && |m.bytes| == PACKET_SIZE && m.bytes[AT_INTERFACE] == INTERFACE &&
    PayloadLen(m.bytes) == |packet.payload| <= 125 && PacketOf(m.bytes) == packet
  }

  lemma PutKeepsInv(cfg: Config, s: Sys, e: nat, at: nat, b: byte)
    requires Inv(cfg, s) && e < cfg.elements && s.own[e] == Held(RECEIVER) && at < |s.p.data[e]|
    ensures Inv(cfg, Put(cfg, s, e, at, b))
  {
    FillKeepsInv(cfg, s, RECEIVER, e, s.p.data[e][at := b]);
  }

  lemma AcquiredRefines(cfg: Config, bd: Board, e: nat, s: Sys)
    requires BoardShape(cfg, bd) && Acquirable(cfg, bd.sys.p, PACKET_READY) == Some(e) && s.posted == bd.sys.posted
    requires s == GetFreeStep(cfg, bd.sys, RECEIVER, PACKET_READY) && Inv(cfg, s)
    ensures var r := ResetBuffer(cfg, bd);
            && BoardInv(cfg, r) && r.sys.posted == bd.sys.posted
            && AbsRx(cfg, r) == ReceiverModel.Reset(AbsRx(cfg, bd), true)
  {
    assert PoolData(s.p.data, PacketPool(cfg));
    FillKeepsInv(cfg, s, RECEIVER, e, ClearedPacket(s.p.data[e]));
  }

  lemma ResetRefines(cfg: Config, bd: Board)
    requires BoardShape(cfg, bd) && Inv(cfg, bd.sys)
    requires bd.rx.buffer.Some? ==>
               bd.rx.buffer.value < cfg.elements && bd.sys.own[bd.rx.buffer.value] == Held(RECEIVER)
    ensures var r := ResetBuffer(cfg, bd);
            && BoardInv(cfg, r) && r.sys.posted == bd.sys.posted
            && AbsRx(cfg, r) == ReceiverModel.Reset(AbsRx(cfg, bd), EnvOf(cfg, bd).acquire)
  {
    var e := Acquirable(cfg, bd.sys.p, PACKET_READY);
    if e.Some? {
      var s := GetFreeStep(cfg, bd.sys, RECEIVER, PACKET_READY);
      assert Inv(cfg, s) by { GetFreeKeepsInv(cfg, bd.sys, RECEIVER, PACKET_READY); }
      AcquiredRefines(cfg, bd, e.value, s);
    }
  }

  lemma StoredSlice(was: seq<byte>, n: nat, b: byte)
    requires AT_ID + n < |was|
    ensures was[AT_ID + n := b][AT_ID..AT_ID + (n + 1)] == was[AT_ID..AT_ID + n] + [b]
  {
  }

  lemma StoreRefines(cfg: Config, bd: Board, b: byte)
    requires BoardInv(cfg, bd) && bd.rx.buffer.Some? && bd.rx.received < MAX_PACKET_LEN
    ensures var r := Store(cfg, bd, b);
            && BoardInv(cfg, r) && r.sys.posted == bd.sys.posted
            && AbsRx(cfg, r) == ReceiverModel.Store(AbsRx(cfg, bd), b)
  {
    BufferSize(cfg, bd);
    var e, n := bd.rx.buffer.value, bd.rx.received;
    var was := bd.sys.p.data[e];
    StoredSlice(was, n, b);
    PutKeepsInv(cfg, bd.sys, e, AT_ID + n, b);
    assert Store(cfg, bd, b).sys.p.data[e] == was[AT_ID + n := b];
  }

  /** A buffer that the receiver holds is refused only when the queue is full. */
  lemma PostBufferIs(cfg: Config, s: Sys, e: nat)
    requires InPacketPool(cfg, e) && Inv(cfg, s) && e < cfg.elements && s.own[e] == Held(RECEIVER)
    ensures PostSucceeds(cfg, s, e) <==> !QueueFull(s.p)
    ensures PostBuffer(cfg, s, e) ==
            if QueueFull(s.p) then s
            else Ledger(s, PACKET_READY, PostElement(s.p, PACKET_READY, Lookup(cfg, PACKET_READY).value, e))
    ensures !QueueFull(s.p) ==>
              PostBuffer(cfg, s, e).posted == s.posted + [Message(PACKET_READY, e, s.p.data[e])]
  {
    OwnBufferIsElement(cfg, e);
    assert HeaderOk(s.p.hdr[e], s.own[e], s.locks[e], s.p.pc);
  }

  lemma PostBufferKeepsInv(cfg: Config, s: Sys, e: nat)
    requires InPacketPool(cfg, e) && Inv(cfg, s) && e < cfg.elements && s.own[e] == Held(RECEIVER)
    ensures Inv(cfg, PostBuffer(cfg, s, e))
  {
    OwnBufferIsElement(cfg, e);
    PostKeepsInv(cfg, s, RECEIVER, PACKET_READY, BufferAddr(cfg, e), []);
  }

  lemma SameFree(hdr: seq<Header>, hdr': seq<Header>, lo: nat, hi: nat)
    requires lo <= hi <= |hdr| == |hdr'|
    requires forall e :: lo <= e < hi ==> (IsFree(hdr[e]) <==> IsFree(hdr'[e]))
    ensures FirstFree(hdr, lo, hi) == FirstFree(hdr', lo, hi)
  {
  }

  lemma PostElementKeepsFree(p: Pump, id: int, k: nat, e: nat, lo: nat, hi: nat)
    requires e < |p.hdr| && p.tail < |p.queue| && lo <= hi <= |p.hdr|
    requires p.hdr[e] == Header(MAGIC, 1, InUse)
    ensures FirstFree(PostElement(p, id, k, e).pump.hdr, lo, hi) == FirstFree(p.hdr, lo, hi)
  {
    SameFree(PostElement(p, id, k, e).pump.hdr, p.hdr, lo, hi);
  }

  lemma HeldHeader(cfg: Config, s: Sys, e: nat)
    requires Inv(cfg, s) && e < cfg.elements && s.own[e] == Held(RECEIVER)
    ensures s.p.hdr[e] == Header(MAGIC, 1, InUse)
  {
    assert HeaderOk(s.p.hdr[e], s.own[e], s.locks[e], s.p.pc);
  }

  /** Posting an element frees none and takes none of the free ones. */
  lemma PostKeepsFree(cfg: Config, s: Sys, e: nat)
    requires InPacketPool(cfg, e) && Inv(cfg, s) && e < cfg.elements && s.own[e] == Held(RECEIVER)
    ensures Acquirable(cfg, PostBuffer(cfg, s, e).p, PACKET_READY) == Acquirable(cfg, s.p, PACKET_READY)
  {
    PostBufferIs(cfg, s, e);
    HeldHeader(cfg, s, e);
    PostKeepsFreeFrom(cfg, s, PostBuffer(cfg, s, e), e);
  }

  lemma PostKeepsFreeFrom(cfg: Config, s: Sys, t: Sys, e: nat)
    requires InPacketPool(cfg, e) && e < cfg.elements && SysShape(cfg, s) && SysShape(cfg, t)
    requires s.p.hdr[e] == Header(MAGIC, 1, InUse)
    requires t.p == if QueueFull(s.p) then s.p
                    else PostElement(s.p, PACKET_READY, Lookup(cfg, PACKET_READY).value, e).pump
    ensures Acquirable(cfg, t.p, PACKET_READY) == Acquirable(cfg, s.p, PACKET_READY)
  {
    var pool := PacketPool(cfg);
    PostElementKeepsFree(s.p, PACKET_READY, Lookup(cfg, PACKET_READY).value, e, pool.base, pool.base + pool.amount);
  }

  /** The buffer that is posted, and what it says. */
  function FinalBytes(bytes: seq<byte>, len: byte): (r: seq<byte>)
    requires |bytes| == PACKET_SIZE
    ensures |r| == PACKET_SIZE
  {
    bytes[0 := len][1 := 0]
  }

  lemma SliceOfSlice(s: seq<byte>, at: nat, len: nat, lo: nat, hi: nat)
    requires at + len <= |s| && lo <= hi <= len
    ensures s[at..at + len][lo..hi] == s[at + lo..at + hi]
  {
    var part := s[at..at + len];
    var l, r := part[lo..hi], s[at + lo..at + hi];
    forall j | 0 <= j < |l|
      ensures l[j] == r[j]
    {
      assert l[j] == part[lo + j];
    }
  }

  lemma FinalBytesMean(bytes: seq<byte>, got: seq<byte>, m: Message)
    requires |bytes| == PACKET_SIZE && 2 <= |got| < MAX_PACKET_LEN && bytes[AT_ID..AT_ID + |got|] == got
    requires bytes[AT_INTERFACE] == INTERFACE
    requires m.id == PACKET_READY && m.bytes == FinalBytes(bytes, |got| - 2)
    ensures MeansPacket(m, Packet(got[0], got[1..|got| - 1]))
  {
    var n := |got| - 2;
    assert PayloadLen(m.bytes) == n;
    var all := bytes[AT_ID..AT_ID + |got|];
    assert got[0] == all[0] == bytes[AT_ID];
    assert m.bytes[AT_PACKET..AT_PACKET + n] == bytes[AT_ID + 1..AT_ID + (n + 1)];
    SliceOfSlice(bytes, AT_ID, |got|, 1, n + 1);
  }

  lemma PutLengthIs(cfg: Config, s: Sys, e: nat, len: byte)
    requires Inv(cfg, s) && e < cfg.elements && s.own[e] == Held(RECEIVER) && |s.p.data[e]| == PACKET_SIZE
    ensures Inv(cfg, PutLength(cfg, s, e, len))
    ensures var t := PutLength(cfg, s, e, len);
            t == s.(p := s.p.(data := t.p.data)) && t.own == s.own && t.p.data[e] == FinalBytes(s.p.data[e], len)
  {
    PutKeepsInv(cfg, s, e, 0, len);
    PutKeepsInv(cfg, Put(cfg, s, e, 0, len), e, 1, 0);
  }

  lemma PostRefinesWhenFull(cfg: Config, bd: Board, s: Sys, e: nat)
    requires BoardInv(cfg, bd) && bd.rx.buffer == Some(e) && InPacketPool(cfg, e) && e < cfg.elements
    requires Inv(cfg, s) && s == bd.sys.(p := bd.sys.p.(data := s.p.data)) && QueueFull(s.p)
    ensures var r := ResetBuffer(cfg, Board(PostBuffer(cfg, s, e), bd.rx));
            && BoardInv(cfg, r) && r.sys.posted == bd.sys.posted
            && AbsRx(cfg, r) == ReceiverModel.Reset(AbsRx(cfg, bd), EnvOf(cfg, bd).acquire)
  {
    PostBufferIs(cfg, s, e);
    ResetRefines(cfg, Board(s, bd.rx));
  }

  lemma PostRefinesWhenNotFull(cfg: Config, bd: Board, s: Sys, e: nat)
    requires BoardInv(cfg, bd) && bd.rx.buffer == Some(e) && InPacketPool(cfg, e) && e < cfg.elements
    requires Inv(cfg, s) && s == bd.sys.(p := bd.sys.p.(data := s.p.data)) && !QueueFull(s.p)
    ensures var r := ResetBuffer(cfg, Board(PostBuffer(cfg, s, e), bd.rx.(buffer := None)));
            && BoardInv(cfg, r)
            && r.sys.posted == bd.sys.posted + [Message(PACKET_READY, e, s.p.data[e])]
            && AbsRx(cfg, r) == ReceiverModel.State(EnvOf(cfg, bd).acquire, ReceiverModel.Unknown, [], 0)
  {
    PostBufferIs(cfg, s, e);
    PostBufferKeepsInv(cfg, s, e);
    PostKeepsFree(cfg, s, e);
    ResetRefines(cfg, Board(PostBuffer(cfg, s, e), bd.rx.(buffer := None)));
  }

  lemma PostPacketIs(cfg: Config, bd: Board, s: Sys, e: nat)
    requires BoardShape(cfg, bd) && bd.rx.buffer == Some(e) && bd.rx.received >= 2
    requires e < cfg.elements && |bd.sys.p.data[e]| == PACKET_SIZE
    requires s == PutLength(cfg, bd.sys, e, bd.rx.received - 2)
    ensures PostPacket(cfg, bd) == ResetBuffer(cfg,
              Board(PostBuffer(cfg, s, e), if PostSucceeds(cfg, s, e) then bd.rx.(buffer := None) else bd.rx))
  {
  }

  lemma PostPacketRefused(cfg: Config, bd: Board, s: Sys, e: nat)
    requires BoardInv(cfg, bd) && bd.rx.buffer == Some(e) && 2 <= bd.rx.received < MAX_PACKET_LEN
    requires e < cfg.elements && |bd.sys.p.data[e]| == PACKET_SIZE && QueueFull(bd.sys.p)
    requires s == PutLength(cfg, bd.sys, e, bd.rx.received - 2) && Inv(cfg, s)
    requires s == bd.sys.(p := bd.sys.p.(data := s.p.data))
    ensures var r := PostPacket(cfg, bd);
            && BoardInv(cfg, r) && r.sys.posted == bd.sys.posted
            && AbsRx(cfg, r) == ReceiverModel.Reset(AbsRx(cfg, bd), EnvOf(cfg, bd).acquire)
  {
    PostPacketIs(cfg, bd, s, e);
    assert !PostSucceeds(cfg, s, e) by { PostBufferIs(cfg, s, e); }
    PostRefinesWhenFull(cfg, bd, s, e);
  }

  lemma PostPacketQueued(cfg: Config, bd: Board, s: Sys, e: nat)
    requires BoardInv(cfg, bd) && bd.rx.buffer == Some(e) && 2 <= bd.rx.received < MAX_PACKET_LEN
    requires e < cfg.elements && |bd.sys.p.data[e]| == PACKET_SIZE && !QueueFull(bd.sys.p)
    requires s == PutLength(cfg, bd.sys, e, bd.rx.received - 2) && Inv(cfg, s)
    requires s == bd.sys.(p := bd.sys.p.(data := s.p.data))
    ensures var r := PostPacket(cfg, bd);
            && BoardInv(cfg, r)
            && r.sys.posted == bd.sys.posted + [Message(PACKET_READY, e, s.p.data[e])]
            && AbsRx(cfg, r) == ReceiverModel.State(EnvOf(cfg, bd).acquire, ReceiverModel.Unknown, [], 0)
  {
    PostPacketIs(cfg, bd, s, e);
    assert PostSucceeds(cfg, s, e) by { PostBufferIs(cfg, s, e); }
    PostRefinesWhenNotFull(cfg, bd, s, e);
  }

  lemma QueuedMessageMeans(cfg: Config, bd: Board, s: Sys, e: nat, t: Sys)
    requires BoardShape(cfg, bd) && bd.rx.buffer == Some(e) && 2 <= bd.rx.received < MAX_PACKET_LEN
    requires e < cfg.elements && |bd.sys.p.data[e]| == PACKET_SIZE && e < |s.p.data|
    requires bd.sys.p.data[e][AT_INTERFACE] == INTERFACE
    requires s.p.data[e] == FinalBytes(bd.sys.p.data[e], bd.rx.received - 2)
    requires t.posted == bd.sys.posted + [Message(PACKET_READY, e, s.p.data[e])]
    ensures var got := AbsRx(cfg, bd).got;
            |got| >= 2 && Posted(bd.sys, t, [Packet(got[0], got[1..|got| - 1])])
  {
    FinalBytesMean(bd.sys.p.data[e], AbsRx(cfg, bd).got, Message(PACKET_READY, e, s.p.data[e]));
  }

  /** The buffer knows the interface it is received on. */
  ghost predicate Marked(cfg: Config, bd: Board)
    requires BoardShape(cfg, bd) && bd.rx.buffer.Some?
  {
    BufferSize(cfg, bd);
    bd.sys.p.data[bd.rx.buffer.value][AT_INTERFACE] == INTERFACE
  }

  /** What posting a completed packet does to the receiver. */
  ghost predicate PostsPacket(cfg: Config, bd: Board, r: Board)
    requires BoardShape(cfg, bd) && BoardShape(cfg, r)
  {
    var rx, env := AbsRx(cfg, bd), EnvOf(cfg, bd);
    && |rx.got| >= 2
    && BoardInv(cfg, r)
    && AbsRx(cfg, r) == ReceiverModel.Reset(rx.(armed := !env.post), env.reacquire)
    && Posted(bd.sys, r.sys, if env.post then [Packet(rx.got[0], rx.got[1..|rx.got| - 1])] else [])
  }

  lemma RefusedRefines(cfg: Config, bd: Board, s: Sys, e: nat)
    requires BoardInv(cfg, bd) && bd.rx.buffer == Some(e) && 2 <= bd.rx.received < MAX_PACKET_LEN
    requires e < cfg.elements && |bd.sys.p.data[e]| == PACKET_SIZE && QueueFull(bd.sys.p)
    requires s == PutLength(cfg, bd.sys, e, bd.rx.received - 2) && Inv(cfg, s)
    requires s == bd.sys.(p := bd.sys.p.(data := s.p.data))
    ensures PostsPacket(cfg, bd, PostPacket(cfg, bd))
  {
    PostPacketRefused(cfg, bd, s, e);
  }

  lemma QueuedRefines(cfg: Config, bd: Board, s: Sys, e: nat)
    requires BoardInv(cfg, bd) && bd.rx.buffer == Some(e) && 2 <= bd.rx.received < MAX_PACKET_LEN
    requires e < cfg.elements && |bd.sys.p.data[e]| == PACKET_SIZE && !QueueFull(bd.sys.p)
    requires bd.sys.p.data[e][AT_INTERFACE] == INTERFACE
    requires s == PutLength(cfg, bd.sys, e, bd.rx.received - 2) && Inv(cfg, s)
    requires s == bd.sys.(p := bd.sys.p.(data := s.p.data))
    requires s.p.data[e] == FinalBytes(bd.sys.p.data[e], bd.rx.received - 2)
    ensures PostsPacket(cfg, bd, PostPacket(cfg, bd))
  {
    PostPacketQueued(cfg, bd, s, e);
    QueuedMessageMeans(cfg, bd, s, e, PostPacket(cfg, bd).sys);
  }

  lemma PostRefines(cfg: Config, bd: Board)
    requires BoardInv(cfg, bd) && bd.rx.buffer.Some? && 2 <= bd.rx.received < MAX_PACKET_LEN
    requires Marked(cfg, bd)
    ensures PostsPacket(cfg, bd, PostPacket(cfg, bd))
  {
    BufferSize(cfg, bd);
    var e, len := bd.rx.buffer.value, bd.rx.received - 2;
    var s := PutLength(cfg, bd.sys, e, len);
    PutLengthIs(cfg, bd.sys, e, len);
    if QueueFull(bd.sys.p) {
      RefusedRefines(cfg, bd, s, e);
    } else {
      QueuedRefines(cfg, bd, s, e);
    }
  }

  /** The refinement statement for one handled byte. */
  ghost predicate Refines(cfg: Config, bd: Board, r: Board, out: ReceiverModel.Outcome)
    requires BoardShape(cfg, bd) && BoardShape(cfg, r)
  {
    BoardInv(cfg, r) && AbsRx(cfg, r) == out.state && Posted(bd.sys, r.sys, out.posted)
  }

  /** Changes to the receiver's variables alone. */
  lemma Retune(cfg: Config, bd: Board, rx: Rx)
    requires BoardInv(cfg, bd) && bd.rx.buffer.Some?
    requires rx.buffer == bd.rx.buffer && (rx.received == bd.rx.received || rx.received == 0)
    ensures BoardInv(cfg, bd.(rx := rx))
    ensures AbsRx(cfg, bd.(rx := rx)) == ReceiverModel.State(true, rx.mode,
              if rx.received == bd.rx.received then AbsRx(cfg, bd).got else [], rx.checkSum)
    ensures EnvOf(cfg, bd.(rx := rx)) == EnvOf(cfg, bd)
  {
    BufferSize(cfg, bd);
  }

  lemma MarkRefines(cfg: Config, bd: Board)
    requires BoardInv(cfg, bd) && bd.rx.buffer.Some?
    requires bd.rx.buffer.value < cfg.elements && |bd.sys.p.data[bd.rx.buffer.value]| == PACKET_SIZE
    ensures var marked := bd.(sys := Put(cfg, bd.sys, bd.rx.buffer.value, AT_INTERFACE, INTERFACE));
            && BoardInv(cfg, marked) && AbsRx(cfg, marked) == AbsRx(cfg, bd) && Marked(cfg, marked)
            && EnvOf(cfg, marked) == EnvOf(cfg, bd) && marked.sys.posted == bd.sys.posted
  {
    PutKeepsInv(cfg, bd.sys, bd.rx.buffer.value, AT_INTERFACE, INTERFACE);
  }

  /** Behind a reset the counters are zero already. */
  lemma ResetIsFinal(cfg: Config, r: Board)
    requires BoardInv(cfg, r) && AbsRx(cfg, r).got == [] && AbsRx(cfg, r).sum == 0
    ensures r.(rx := r.rx.(checkSum := 0, received := 0)) == r
  {
    if r.rx.buffer.Some? {
      BufferSize(cfg, r);
    }
  }

  lemma FinishPostRefines(cfg: Config, bd: Board, marked: Board)
    requires BoardInv(cfg, bd) && bd.rx.buffer.Some? && 2 <= bd.rx.received < MAX_PACKET_LEN
    requires BoardInv(cfg, marked) && marked.rx == bd.rx && AbsRx(cfg, marked) == AbsRx(cfg, bd)
    requires Marked(cfg, marked)
    requires EnvOf(cfg, marked) == EnvOf(cfg, bd) && marked.sys.posted == bd.sys.posted && bd.rx.checkSum == 0
    ensures var r := PostPacket(cfg, marked);
            Refines(cfg, bd, r.(rx := r.rx.(checkSum := 0, received := 0)),
                    ReceiverModel.FinishPacket(AbsRx(cfg, bd), EnvOf(cfg, bd)))
  {
    PostRefines(cfg, marked);
    ResetIsFinal(cfg, PostPacket(cfg, marked));
    PostedMeansRefined(cfg, bd, marked, PostPacket(cfg, marked));
  }

  lemma PostedMeansRefined(cfg: Config, bd: Board, marked: Board, r: Board)
    requires BoardShape(cfg, bd) && BoardShape(cfg, marked) && BoardShape(cfg, r) && PostsPacket(cfg, marked, r)
    requires AbsRx(cfg, marked) == AbsRx(cfg, bd) && AbsRx(cfg, bd).sum == 0
    requires EnvOf(cfg, marked) == EnvOf(cfg, bd) && marked.sys.posted == bd.sys.posted
    ensures Refines(cfg, bd, r, ReceiverModel.FinishPacket(AbsRx(cfg, bd), EnvOf(cfg, bd)))
  {
  }

  lemma FinishRefines(cfg: Config, bd: Board)
    requires BoardInv(cfg, bd) && bd.rx.buffer.Some? && bd.rx.received < MAX_PACKET_LEN
    ensures Refines(cfg, bd, FinishPacket(cfg, bd), ReceiverModel.FinishPacket(AbsRx(cfg, bd), EnvOf(cfg, bd)))
  {
    BufferSize(cfg, bd);
    if bd.rx.checkSum != 0 {
      Retune(cfg, bd, bd.rx.(checkSum := 0, received := 0));
    } else {
      MarkRefines(cfg, bd);
      var marked := bd.(sys := Put(cfg, bd.sys, bd.rx.buffer.value, AT_INTERFACE, INTERFACE));
      if bd.rx.received >= 2 {
        FinishPostRefines(cfg, bd, marked);
      } else {
        Retune(cfg, marked, marked.rx.(mode := ReceiverModel.Unknown, checkSum := 0, received := 0));
      }
    }
  }

  lemma EndRefines(cfg: Config, bd: Board)
    requires BoardInv(cfg, bd) && bd.rx.buffer.Some? && bd.rx.received < MAX_PACKET_LEN
    ensures var last := bd.(rx := bd.rx.(checkSum := Sub8(bd.rx.checkSum, END)));
            && BoardInv(cfg, last)
            && var rx := AbsRx(cfg, bd);
               Refines(cfg, bd, FinishPacket(cfg, last),
                       ReceiverModel.FinishPacket(rx.(sum := Sub8(rx.sum, END)), EnvOf(cfg, bd)))
  {
    var last := bd.(rx := bd.rx.(checkSum := Sub8(bd.rx.checkSum, END)));
    Retune(cfg, bd, last.rx);
    FinishRefines(cfg, last);
  }

  /** A byte inside a packet that is not full, with the mode that it leads to. */
  lemma SummedRefines(cfg: Config, bd: Board, b: byte, summed: Board)
    requires BoardInv(cfg, bd) && bd.rx.buffer.Some? && bd.rx.received < MAX_PACKET_LEN
    requires bd.rx.mode == ReceiverModel.Escaped || b != BEGIN
    requires var rx := bd.rx;
             var mode := if rx.mode != ReceiverModel.Escaped && b == END then ReceiverModel.PacketEnd else rx.mode;
             summed == bd.(rx := bd.rx.(mode := mode, checkSum := Add8(bd.rx.checkSum, b)))
    ensures Refines(cfg, bd, Handle(cfg, bd, b), ReceiverModel.Handle(AbsRx(cfg, bd), b, EnvOf(cfg, bd)))
  {
    Retune(cfg, bd, summed.rx);
    match summed.rx.mode
    case Payload =>
      if b != ESCAPE {
        StoreRefines(cfg, summed, b);
      } else {
        Retune(cfg, summed, summed.rx.(mode := ReceiverModel.Escaped));
      }
    case Escaped => StoreRefines(cfg, summed, b);
    case PacketEnd => EndRefines(cfg, summed);
    case Unknown =>
  }

  lemma HandleRefines(cfg: Config, bd: Board, b: byte)
    requires BoardInv(cfg, bd) && bd.rx.buffer.Some?
    ensures Refines(cfg, bd, Handle(cfg, bd, b), ReceiverModel.Handle(AbsRx(cfg, bd), b, EnvOf(cfg, bd)))
  {
    var rx := bd.rx;
    if rx.mode != ReceiverModel.Escaped && b == BEGIN {
      Retune(cfg, bd, Rx(rx.buffer, ReceiverModel.Payload, 0, 0));
    } else if rx.received >= MAX_PACKET_LEN {
      Retune(cfg, bd, rx.(mode := ReceiverModel.Unknown));
    } else {
      var mode := if rx.mode != ReceiverModel.Escaped && b == END then ReceiverModel.PacketEnd else rx.mode;
      SummedRefines(cfg, bd, b, bd.(rx := rx.(mode := mode, checkSum := Add8(rx.checkSum, b))));
    }
  }

  lemma ArmRefines(cfg: Config, bd: Board)
    requires BoardInv(cfg, bd) && bd.rx.buffer.None?
    ensures var r := ResetBuffer(cfg, bd);
            && BoardInv(cfg, r) && r.sys.posted == bd.sys.posted
            && AbsRx(cfg, r) == ReceiverModel.Reset(AbsRx(cfg, bd), EnvOf(cfg, bd).acquire)
            && r.rx.mode == ReceiverModel.Unknown && r.rx.received == 0
  {
    ResetRefines(cfg, bd);
  }

  /** One byte: the receiver on the pump does what `ReceiverModel.Step` says for the answers
      that the pump gives, keeps its ownership, and what the step posts is what it queues. */
  lemma ReceiveRefines(cfg: Config, bd: Board, b: byte)
    requires BoardInv(cfg, bd)
    ensures Refines(cfg, bd, Receive(cfg, bd, b),
                    ReceiverModel.Step(AbsRx(cfg, bd), ReceiverModel.Input(b, EnvOf(cfg, bd))))
  {
    if bd.rx.buffer.Some? {
      HandleRefines(cfg, bd, b);
    } else {
      ArmRefines(cfg, bd);
      var armed := ResetBuffer(cfg, bd);
      if armed.rx.buffer.Some? {
        HandleRefines(cfg, armed, b);
        HuntingIgnoresEnv(AbsRx(cfg, armed), b, EnvOf(cfg, armed), EnvOf(cfg, bd));
      }
    }
  }

  /** A receiver that hunts on an empty buffer posts nothing, so the pump is not asked. */
  lemma HuntingIgnoresEnv(s: ReceiverModel.State, b: byte, env: ReceiverModel.Env, env': ReceiverModel.Env)
    requires s.armed && s.mode == ReceiverModel.Unknown && s.got == []
    ensures ReceiverModel.Handle(s, b, env) == ReceiverModel.Handle(s, b, env')
    ensures ReceiverModel.Handle(s, b, env).posted == []
  {
  }
}
