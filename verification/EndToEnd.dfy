/** One hop from board to board: a message posted on board A, sent by its proxy, received by
    board B amid whatever else B is doing, and posted there again. */
module EndToEnd {
  import opened Bytes
  import opened Options
  import opened Search
  import opened Framing
  import opened PumpModel
  import opened PumpInvariant
  import PumpRuns
  import ReceiverModel
  import SenderModel
  import opened BoardModel
  import opened BoardRuns
  import opened Calls
  import opened BoardCalls
  import opened ProxyModel
  import Proxy

  /** A packet that the history of packets gained was posted as a message with those bytes. */
  lemma {:induction false} NewPacketIsPosted(before: seq<Message>, after: seq<Message>, p: Packet) returns (n: nat)
    requires before <= after
    requires PacketsIn(after) == PacketsIn(before) + [p]
    ensures |before| <= n < |after|
    ensures after[n].id == PACKET_READY && |after[n].bytes| == PACKET_SIZE && PacketOf(after[n].bytes) == p
    decreases |after|
  {
    assert |before| < |after| by {
      assert |before| == |after| ==> before == after;
    }
    n := |after| - 1;
    var m, rest := after[n], after[..n];
    assert after == rest + [m];
    PacketsInSnoc(rest, m);
    if m.id == PACKET_READY && |m.bytes| == PACKET_SIZE {
      assert PacketsIn(after)[|PacketsIn(after)| - 1] == p;
    } else {
      assert before <= rest;
      n := NewPacketIsPosted(before, rest, p);
    }
  }

  /** The bytes of the packet that carries a message. */
  ghost predicate Carries(bytes: seq<byte>, wireID: int, data: seq<byte>)
    requires |bytes| == PACKET_SIZE && 0 <= wireID < 0x10000
  {
    && bytes[AT_ID] == PROXY_ENDPOINT
    && PayloadLen(bytes) == 2 + |data| <= MAX_PACKET_LEN
    && bytes[AT_PACKET..][..2 + |data|] == IdBytes(wireID) + data
  }

  lemma SentIsOneFrame(pools: seq<Pool>, ids: seq<IdPair>, tx: SenderModel.State,
                       id: int, data: seq<byte>, sent: seq<byte>)
    requires IdsFit(ids) && !tx.isSending
    requires ExternalOf(ids, id).Some? && FirstPool(pools, id, 0).Some?
    requires |data| == pools[FirstPool(pools, id, 0).value].msgSize
    requires Outgoing(pools, ids, tx, id, data).wire == tx.wire + sent
    ensures 0 <= ExternalOf(ids, id).value < 0x10000
    ensures sent == Encode(PROXY_ENDPOINT, IdBytes(ExternalOf(ids, id).value) + data)
  {
    OutgoingIsOneFrame(pools, ids, tx, id, data);
    assert sent == (tx.wire + sent)[|tx.wire|..];
  }

  lemma FrameBecomesMessage(cfg: Config, bd: Board, evs: seq<BoardEvent>, p: Packet) returns (n: nat)
    requires BoardInv(cfg, bd) && BoardRun(cfg, bd, evs) && NeverExhausted(cfg, bd, evs)
    requires ReceiverModel.Hunting(AbsRx(cfg, bd)) && BytesIn(evs) == Encode(p.id, p.payload) && |p.payload| <= 125
    ensures var posted := BoardAfter(cfg, bd, evs).sys.posted;
            && |bd.sys.posted| <= n < |posted| && posted[n].id == PACKET_READY
            && |posted[n].bytes| == PACKET_SIZE && PacketOf(posted[n].bytes) == p
  {
    BoardDecodes(cfg, bd, evs);
    DecodeEncode(p.id, p.payload, []);
    assert Encode(p.id, p.payload) + [] == Encode(p.id, p.payload);
    BoardGrows(cfg, bd, evs);
    n := NewPacketIsPosted(bd.sys.posted, BoardAfter(cfg, bd, evs).sys.posted, p);
  }

  /** Board A to board B: if the message has a wire id and is small enough, the bytes that A's
      proxy adds to the wire are received on B as one packet that carries the message. */
  lemma HopToPacket(poolsA: seq<Pool>, idsA: seq<IdPair>, tx: SenderModel.State, id: int, data: seq<byte>,
                    cfg: Config, bd: Board, evs: seq<BoardEvent>, sent: seq<byte>) returns (n: nat)
    requires IdsFit(idsA) && !tx.isSending
    requires ExternalOf(idsA, id).Some? && FirstPool(poolsA, id, 0).Some?
    requires |data| == poolsA[FirstPool(poolsA, id, 0).value].msgSize && |data| <= 123
    requires Outgoing(poolsA, idsA, tx, id, data).wire == tx.wire + sent
    requires BoardInv(cfg, bd) && BoardRun(cfg, bd, evs) && NeverExhausted(cfg, bd, evs)
    requires ReceiverModel.Hunting(AbsRx(cfg, bd)) && BytesIn(evs) == sent
    ensures 0 <= ExternalOf(idsA, id).value < 0x10000
    ensures var posted := BoardAfter(cfg, bd, evs).sys.posted;
            && |bd.sys.posted| <= n < |posted| && posted[n].id == PACKET_READY
            && |posted[n].bytes| == PACKET_SIZE && Carries(posted[n].bytes, ExternalOf(idsA, id).value, data)
  {
    SentIsOneFrame(poolsA, idsA, tx, id, data, sent);
    var wireID := ExternalOf(idsA, id).value;
    n := FrameBecomesMessage(cfg, bd, evs, Packet(PROXY_ENDPOINT, IdBytes(wireID) + data));
    PacketCarries(BoardAfter(cfg, bd, evs).sys.posted[n].bytes, wireID, data);
  }

  lemma PacketCarries(bytes: seq<byte>, wireID: int, data: seq<byte>)
    requires |bytes| == PACKET_SIZE && 0 <= wireID < 0x10000
    requires PacketOf(bytes) == Packet(PROXY_ENDPOINT, IdBytes(wireID) + data)
    ensures Carries(bytes, wireID, data)
  {
    var len := PayloadLen(bytes);
    assert |PacketOf(bytes).payload| == 2 + |data|;
    assert len <= MAX_PACKET_LEN;
    assert bytes[AT_PACKET..][..len] == bytes[AT_PACKET..AT_PACKET + len];
  }

  /** Board B, routing: the dispatcher hands the packet to the first endpoint with the proxy's
      id, and what the proxy endpoint asks the pump to post is the message itself. */
  lemma PacketToRequest(pools: seq<Pool>, ids: seq<IdPair>, endpoints: seq<byte>, bytes: seq<byte>,
                        wireID: int, data: seq<byte>, id: int)
    requires |bytes| == PACKET_SIZE && 0 <= wireID < 0x10000 && Carries(bytes, wireID, data)
    requires PROXY_ENDPOINT in endpoints
    requires InternalOf(ids, wireID) == Some(id) && FirstPool(pools, id, 0).Some?
    requires pools[FirstPool(pools, id, 0).value].msgSize == |data|
    ensures var call := Dispatched(endpoints, PACKET_READY, bytes);
            && call.Some? && FirstIndex(endpoints, PROXY_ENDPOINT, 0) == Some(call.value.endpoint)
            && |call.value.packet| >= 2
            && var r := Incoming(pools, ids, call.value.packet, call.value.len);
               r.Some? && r.value.id == id && |r.value.data| >= |data| && r.value.data[..|data|] == data
  {
    IncomingOfOutgoing(pools, ids, wireID, data, bytes[AT_PACKET..]);
  }

  /** Posting `bytes` for `id` queues a message that says `data`, or changes nothing because the
      queue is full or the pool has no free element. */
  ghost predicate PostsUnlessExhausted(cfg: Config, s: Sys, id: int, addr: int, bytes: seq<byte>, data: seq<byte>)
    requires WellFormed(cfg) && SysShape(cfg, s)
  {
    && PostCallable(cfg, id, addr, bytes) && Lookup(cfg, id).Some?
    && var pool, t := cfg.pools[Lookup(cfg, id).value], PostStep(cfg, s, id, addr, bytes);
       if |s.posted| - s.done == QUEUE_MAX ||
          (forall e :: pool.base <= e < pool.base + pool.amount && e < |s.own| ==> s.own[e] != Free)
       then t == s
       else |t.posted| == |s.posted| + 1 &&
            t.posted[|s.posted|].id == id && t.posted[|s.posted|].bytes == data
  }

  /** The pointer that the proxy posts leads into a packet buffer, not into the target pool. */
  lemma PacketPointerIsForeign(cfg: Config, id: int, buffer: nat)
    requires InPacketPool(cfg, buffer) && id != PACKET_READY && Lookup(cfg, id).Some?
    ensures PoolOk(cfg, cfg.pools[Lookup(cfg, id).value])
    ensures 0 <= BufferAddr(cfg, buffer) + AT_PACKET + 2 < ADDRESSES
    ensures Classify(cfg, cfg.pools[Lookup(cfg, id).value], BufferAddr(cfg, buffer) + AT_PACKET + 2) == Outside
  {
    var k, q := Lookup(cfg, id).value, Lookup(cfg, PACKET_READY).value;
    assert PoolOk(cfg, cfg.pools[k]) && PoolOk(cfg, cfg.pools[q]);
    assert InMemory(cfg, cfg.pools[k]) && InMemory(cfg, cfg.pools[q]);
    assert PoolsApart(cfg, cfg.pools[k], cfg.pools[q]) || PoolsApart(cfg, cfg.pools[q], cfg.pools[k]);
    ForeignPointerIsOutside(cfg, cfg.pools[k], cfg.pools[q], buffer - cfg.pools[q].base, AT_PACKET + 2);
  }

  /** Board B, posting: the request comes from inside a packet buffer, so it is copied, and what
      is queued says what the message said. */
  lemma RequestToMessage(cfg: Config, s: Sys, who: nat, buffer: nat, r: PostRequest, data: seq<byte>)
    requires HasPacketPool(cfg) && Inv(cfg, s) && InPacketPool(cfg, buffer)
    requires r.id != PACKET_READY && Lookup(cfg, r.id).Some?
    requires cfg.pools[Lookup(cfg, r.id).value].msgSize == |data| <= |r.data| && r.data[..|data|] == data
    ensures var addr := BufferAddr(cfg, buffer) + AT_PACKET + 2;
            && Classify(cfg, cfg.pools[Lookup(cfg, r.id).value], addr) == Outside
            && PostsUnlessExhausted(cfg, s, r.id, addr, r.data, data)
  {
    PacketPointerIsForeign(cfg, r.id, buffer);
    var addr := BufferAddr(cfg, buffer) + AT_PACKET + 2;
    PumpRuns.CopyPostFailsOnlyWhenExhausted(cfg, s, who, r.id, addr, r.data);
  }

  /** The dispatcher has just looked at receiver slot `slot` for message n. */
  predicate Showing(s: Sys, n: nat, slot: nat) {
    s.done == n && slot < RECEIVERS && s.p.pc == Calling(slot + 1)
  }

  /** What a callback sees: while a packet message is being shown, whatever has happened since it
      was posted, its element is a packet buffer in the dispatcher's hands, and the memory of that
      buffer is what was posted. */
  lemma ShownMemory(cfg: Config, s: Sys, n: nat, slot: nat)
    requires HasPacketPool(cfg) && Inv(cfg, s) && Showing(s, n, slot)
    ensures n < |s.posted| && s.posted[n].element < cfg.elements
    ensures s.own[s.posted[n].element] == Dispatching && s.p.data[s.posted[n].element] == s.posted[n].bytes
    ensures |s.visits| == RECEIVERS * n + slot + 1 && VisitOk(s, n, slot)
    ensures s.posted[n].id == PACKET_READY ==> InPacketPool(cfg, s.posted[n].element)
  {
    assert s.p.size > 0 && InFlight(s, n) && FlightOk(s, n);
    assert EntryOk(cfg, s.p.queue[Slot(n)], s.posted[n]);
    assert VisitOk(s, n, slot);
  }

  /** Board B, from the call on: the dispatcher's routing and the proxy endpoint ask the pump for a
      post straight from the buffer's memory, and it posts the message. */
  lemma CallToMessage(cfg: Config, s: Sys, n: nat, slot: nat, endpoints: seq<byte>, ids: seq<IdPair>,
                      wireID: int, data: seq<byte>, id: int)
    requires HasPacketPool(cfg) && Inv(cfg, s) && Showing(s, n, slot)
    requires n < |s.posted| && s.posted[n].id == PACKET_READY && |s.posted[n].bytes| == PACKET_SIZE
    requires 0 <= wireID < 0x10000 && Carries(s.posted[n].bytes, wireID, data)
    requires PROXY_ENDPOINT in endpoints && id != PACKET_READY
    requires InternalOf(ids, wireID) == Some(id) && Lookup(cfg, id).Some?
    requires cfg.pools[Lookup(cfg, id).value].msgSize == |data|
    ensures Delivers(cfg, s, n, endpoints, ids, id, data)
  {
    ShownMemory(cfg, s, n, slot);
    MemoryToMessage(cfg, s, n, endpoints, ids, wireID, data, id);
  }

  lemma MemoryToMessage(cfg: Config, s: Sys, n: nat, endpoints: seq<byte>, ids: seq<IdPair>,
                        wireID: int, data: seq<byte>, id: int)
    requires HasPacketPool(cfg) && Inv(cfg, s) && n < |s.posted| && InPacketPool(cfg, s.posted[n].element)
    requires s.posted[n].element < |s.p.data| && s.p.data[s.posted[n].element] == s.posted[n].bytes
    requires s.posted[n].id == PACKET_READY && |s.posted[n].bytes| == PACKET_SIZE
    requires 0 <= wireID < 0x10000 && Carries(s.posted[n].bytes, wireID, data)
    requires PROXY_ENDPOINT in endpoints && id != PACKET_READY
    requires InternalOf(ids, wireID) == Some(id) && Lookup(cfg, id).Some?
    requires cfg.pools[Lookup(cfg, id).value].msgSize == |data|
    ensures Delivers(cfg, s, n, endpoints, ids, id, data)
  {
    var memory := s.posted[n].bytes[AT_PACKET + 2..];
    var addr := BufferAddr(cfg, s.posted[n].element) + AT_PACKET + 2;
    assert PostsUnlessExhausted(cfg, s, id, addr, memory, data) by {
      assert |data| <= |memory| && memory[..|data|] == data by {
        RequestFromMemory(cfg, s.posted[n].bytes, endpoints, ids, wireID, data, id);
      }
      RequestToMessage(cfg, s, 1, s.posted[n].element, PostRequest(id, memory), data);
    }
    PostDelivers(cfg, s, n, endpoints, ids, wireID, data, id);
  }

  lemma PostDelivers(cfg: Config, s: Sys, n: nat, endpoints: seq<byte>, ids: seq<IdPair>,
                     wireID: int, data: seq<byte>, id: int)
    requires WellFormed(cfg) && SysShape(cfg, s) && n < |s.posted| && InPacketPool(cfg, s.posted[n].element)
    requires s.posted[n].element < |s.p.data| && s.p.data[s.posted[n].element] == s.posted[n].bytes
    requires s.posted[n].id == PACKET_READY && |s.posted[n].bytes| == PACKET_SIZE
    requires 0 <= wireID < 0x10000 && Carries(s.posted[n].bytes, wireID, data)
    requires PROXY_ENDPOINT in endpoints && InternalOf(ids, wireID) == Some(id) && Lookup(cfg, id).Some?
    requires cfg.pools[Lookup(cfg, id).value].msgSize == |data|
    requires PostsUnlessExhausted(cfg, s, id, BufferAddr(cfg, s.posted[n].element) + AT_PACKET + 2,
                                  s.posted[n].bytes[AT_PACKET + 2..], data)
    ensures Delivers(cfg, s, n, endpoints, ids, id, data)
  {
    RequestFromMemory(cfg, s.posted[n].bytes, endpoints, ids, wireID, data, id);
  }

  lemma RequestFromMemory(cfg: Config, bytes: seq<byte>, endpoints: seq<byte>, ids: seq<IdPair>,
                          wireID: int, data: seq<byte>, id: int)
    requires WellFormed(cfg) && |bytes| == PACKET_SIZE && 0 <= wireID < 0x10000 && Carries(bytes, wireID, data)
    requires PROXY_ENDPOINT in endpoints && InternalOf(ids, wireID) == Some(id) && Lookup(cfg, id).Some?
    requires cfg.pools[Lookup(cfg, id).value].msgSize == |data|
    ensures var call, memory := Dispatched(endpoints, PACKET_READY, bytes), bytes[AT_PACKET + 2..];
            && call.Some? && FirstIndex(endpoints, PROXY_ENDPOINT, 0) == Some(call.value.endpoint)
            && |call.value.packet| >= 2
            && Incoming(cfg.pools, ids, call.value.packet, call.value.len) == Some(PostRequest(id, memory))
            && |data| <= |memory| && memory[..|data|] == data
  {
    Proxy.LookupIsFirstPool(cfg, id);
    PacketToRequest(cfg.pools, ids, endpoints, bytes, wireID, data, id);
    assert bytes[AT_PACKET..][2..] == bytes[AT_PACKET + 2..];
  }

  /** With message n in its buffer e: the dispatcher calls the first endpoint of the proxy, the
      endpoint asks for a post of the memory behind e's packet header, and that post queues a
      message `id` that says `data`, unless the queue or the pool is exhausted. */
  ghost predicate Delivers(cfg: Config, s: Sys, n: nat, endpoints: seq<byte>, ids: seq<IdPair>,
                           id: int, data: seq<byte>)
    requires WellFormed(cfg) && SysShape(cfg, s) && n < |s.posted|
  {
    var e := s.posted[n].element;
    && InPacketPool(cfg, e) && e < |s.p.data| && |s.p.data[e]| == PACKET_SIZE
    && var call := Dispatched(endpoints, s.posted[n].id, s.p.data[e]);
       && call.Some? && FirstIndex(endpoints, PROXY_ENDPOINT, 0) == Some(call.value.endpoint)
       && |call.value.packet| >= 2
       && Incoming(cfg.pools, ids, call.value.packet, call.value.len) ==
          Some(PostRequest(id, s.p.data[e][AT_PACKET + 2..]))
       && PostsUnlessExhausted(cfg, s, id, BufferAddr(cfg, e) + AT_PACKET + 2, s.p.data[e][AT_PACKET + 2..], data)
  }

  /** Board B: whenever the dispatcher shows the packet to its callback, after any further run, the
      chain from the dispatcher through the proxy endpoint to the pump posts the message under B's
      id for it, with the bytes it had on A, from the very buffer it was received in. */
  lemma HopFromPacket(cfg: Config, bd: Board, more: seq<BoardEvent>, n: nat, slot: nat,
                      endpoints: seq<byte>, ids: seq<IdPair>, wireID: int, data: seq<byte>, id: int)
    requires BoardInv(cfg, bd) && BoardRun(cfg, bd, more)
    requires n < |bd.sys.posted| && bd.sys.posted[n].id == PACKET_READY
    requires |bd.sys.posted[n].bytes| == PACKET_SIZE && 0 <= wireID < 0x10000
    requires Carries(bd.sys.posted[n].bytes, wireID, data)
    requires Showing(BoardAfter(cfg, bd, more).sys, n, slot)
    requires PROXY_ENDPOINT in endpoints && id != PACKET_READY
    requires InternalOf(ids, wireID) == Some(id) && Lookup(cfg, id).Some?
    requires cfg.pools[Lookup(cfg, id).value].msgSize == |data|
    ensures var s := BoardAfter(cfg, bd, more).sys;
            && n < |s.posted| && s.posted[n] == bd.sys.posted[n]
            && Delivers(cfg, s, n, endpoints, ids, id, data)
  {
    var s := BoardAfter(cfg, bd, more).sys;
    BoardGrows(cfg, bd, more);
    assert s.posted[..|bd.sys.posted|][n] == s.posted[n];
    CallToMessage(cfg, s, n, slot, endpoints, ids, wireID, data, id);
  }

  /** A message small enough for the wire is not a packet itself. */
  lemma NotAPacket(cfg: Config, id: int, size: nat)
    requires HasPacketPool(cfg) && Lookup(cfg, id).Some?
    requires cfg.pools[Lookup(cfg, id).value].msgSize == size <= 123
    ensures id != PACKET_READY
  {
  }

  /** A message for another board. */
  datatype Mail = Mail(id: int, data: seq<byte>)

  /** The message can be sent: it has a wire id that no earlier entry of the id table has, a pool
      that declares its size, and fits a packet. */
  ghost predicate Sendable(pools: seq<Pool>, ids: seq<IdPair>, m: Mail) {
    && FirstInternal(ids, m.id, 0).Some?
    && (var k := FirstInternal(ids, m.id, 0).value;
        forall j :: 0 <= j < k ==> ids[j].externalID != ids[k].externalID)
    && FirstPool(pools, m.id, 0).Some?
    && |m.data| == pools[FirstPool(pools, m.id, 0).value].msgSize
    && |m.data| <= 123
  }

  /** A board that declares the message's id with the message's size. */
  ghost predicate Declares(cfg: Config, m: Mail) {
    Lookup(cfg, m.id).Some? && cfg.pools[Lookup(cfg, m.id).value].msgSize == |m.data|
  }

  /** The dispatcher has just called `cb` from slot `slot` with message n. */
  predicate Called(s: Sys, n: nat, slot: nat, cb: Callback) {
    && Showing(s, n, slot) && n < |s.posted| && |s.visits| == RECEIVERS * n + slot + 1
    && s.visits[RECEIVERS * n + slot] == Visit(slot, cb, s.posted[n].id, s.posted[n].bytes)
  }

  lemma ShowingCalls(cfg: Config, bd: Board, evs: seq<BoardEvent>, n: nat, slot: nat, cb: Callback)
    requires BoardInv(cfg, bd) && BoardRun(cfg, bd, evs) && slot < RECEIVERS
    requires forall be :: be in evs ==> !ChangesSlots(be, PACKET_READY)
    requires SlotsOf(cfg, bd.sys, PACKET_READY)[slot] == cb
    requires var s := BoardAfter(cfg, bd, evs).sys;
             |bd.sys.posted| <= n && Showing(s, n, slot) && n < |s.posted| && s.posted[n].id == PACKET_READY
    ensures Called(BoardAfter(cfg, bd, evs).sys, n, slot, cb)
  {
    var s := BoardAfter(cfg, bd, evs).sys;
    ShownMemory(cfg, s, n, slot);
    BoardLooksFind(cfg, bd, evs, PACKET_READY);
    assert |bd.sys.visits| <= RECEIVERS * n by { assert VisitsOk(bd.sys) && RingOk(bd.sys); }
  }

  /** One hop: a message that board A's proxy sends is posted on board B under the same id and with
      the same bytes, if B declares it. Whatever else B does while the bytes arrive and after, one
      packet message n comes of it; and at whatever moment that one is shown to the receiver slot
      in which the packet dispatcher stands, the dispatcher's callback is called with it, and the
      message is queued from the buffer it was received in, unless B's queue or pool is exhausted
      at that moment. */
  lemma Hop(poolsA: seq<Pool>, ids: seq<IdPair>, tx: SenderModel.State, m: Mail, sent: seq<byte>,
            cfg: Config, bd: Board, evs: seq<BoardEvent>, slot: nat, handler: Callback, endpoints: seq<byte>)
    returns (n: nat)
    requires IdsFit(ids) && !tx.isSending && Sendable(poolsA, ids, m)
    requires Outgoing(poolsA, ids, tx, m.id, m.data).wire == tx.wire + sent
    requires BoardInv(cfg, bd) && BoardRun(cfg, bd, evs) && NeverExhausted(cfg, bd, evs)
    requires ReceiverModel.Hunting(AbsRx(cfg, bd)) && BytesIn(evs) == sent
    requires slot < RECEIVERS && SlotsOf(cfg, bd.sys, PACKET_READY)[slot] == handler
    requires forall be :: be in evs ==> !ChangesSlots(be, PACKET_READY)
    requires PROXY_ENDPOINT in endpoints && Declares(cfg, m)
    ensures |bd.sys.posted| <= n < |BoardAfter(cfg, bd, evs).sys.posted|
    ensures var s := BoardAfter(cfg, bd, evs).sys;
            Showing(s, n, slot) ==> Called(s, n, slot, handler) && Delivers(cfg, s, n, endpoints, ids, m.id, m.data)
  {
    SharedTableIff(ids, m.id);
    n := HopToPacket(poolsA, ids, tx, m.id, m.data, cfg, bd, evs, sent);
    NotAPacket(cfg, m.id, |m.data|);
    var s := BoardAfter(cfg, bd, evs).sys;
    if Showing(s, n, slot) {
      ShowingCalls(cfg, bd, evs, n, slot, handler);
      CallToMessage(cfg, s, n, slot, endpoints, ids, ExternalOf(ids, m.id).value, m.data, m.id);
    }
  }

  /** A stage of the dispatch, and what it shows. */
  lemma StageShows(cfg: Config, s: Sys, n: nat, slot: nat)
    requires Inv(cfg, s) && slot < RECEIVERS
    ensures Showing(s, n, slot) <==> PumpRuns.Progress(s) == PumpRuns.ROUND * n + slot + 2
  {
    assert RingOk(s);
  }

  lemma NotYetShown(cfg: Config, s: Sys, n: nat)
    requires Inv(cfg, s) && |s.posted| <= n
    ensures PumpRuns.Progress(s) <= PumpRuns.ROUND * n
  {
    assert RingOk(s);
  }

  /** The moment of a run at which a message that it posts is shown to a receiver slot. */
  lemma ShownOnTheWay(cfg: Config, bd: Board, evs: seq<BoardEvent>, n: nat, slot: nat) returns (i: nat)
    requires BoardInv(cfg, bd) && BoardRun(cfg, bd, evs) && slot < RECEIVERS
    requires |bd.sys.posted| <= n < BoardAfter(cfg, bd, evs).sys.done
    ensures i <= |evs| && BoardRun(cfg, bd, evs[..i])
    ensures var s, t := BoardAfter(cfg, bd, evs[..i]).sys, BoardAfter(cfg, bd, evs).sys;
            Showing(s, n, slot) && n < |s.posted| && n < |t.posted| && s.posted[n] == t.posted[n]
  {
    NotYetShown(cfg, bd.sys, n);
    var t := BoardAfter(cfg, bd, evs).sys;
    assert RingOk(t) && PumpRuns.Progress(t) >= PumpRuns.ROUND * (n + 1);
    i := PassesThrough(cfg, bd, evs, PumpRuns.ROUND * n + slot + 2);
    var s := BoardAfter(cfg, bd, evs[..i]).sys;
    StageShows(cfg, s, n, slot);
    assert RingOk(s);
    assert t.posted[..|s.posted|][n] == s.posted[n];
  }

  lemma PrefixKeepsSlots(evs: seq<BoardEvent>, i: nat)
    requires i <= |evs| && forall be :: be in evs ==> !ChangesSlots(be, PACKET_READY)
    ensures forall be :: be in evs[..i] ==> !ChangesSlots(be, PACKET_READY)
  {
  }

  /** The whole hop, with its end: if B has emptied its queue by the end of a run in which it
      receives the bytes, there was a moment in the run at which the packet dispatcher's callback
      was called with the packet, and the message was there to be queued under its id and with its
      bytes. */
  lemma HopCompletes(poolsA: seq<Pool>, ids: seq<IdPair>, tx: SenderModel.State, m: Mail, sent: seq<byte>,
                     cfg: Config, bd: Board, evs: seq<BoardEvent>, slot: nat, handler: Callback, endpoints: seq<byte>)
    returns (n: nat, i: nat)
    requires IdsFit(ids) && !tx.isSending && Sendable(poolsA, ids, m)
    requires Outgoing(poolsA, ids, tx, m.id, m.data).wire == tx.wire + sent
    requires BoardInv(cfg, bd) && BoardRun(cfg, bd, evs) && NeverExhausted(cfg, bd, evs)
    requires ReceiverModel.Hunting(AbsRx(cfg, bd)) && BytesIn(evs) == sent
    requires BoardAfter(cfg, bd, evs).sys.done == |BoardAfter(cfg, bd, evs).sys.posted|
    requires slot < RECEIVERS && SlotsOf(cfg, bd.sys, PACKET_READY)[slot] == handler
    requires forall be :: be in evs ==> !ChangesSlots(be, PACKET_READY)
    requires PROXY_ENDPOINT in endpoints && Declares(cfg, m)
    ensures |bd.sys.posted| <= n && i <= |evs| && BoardRun(cfg, bd, evs[..i])
    ensures var s := BoardAfter(cfg, bd, evs[..i]).sys;
            Called(s, n, slot, handler) && Delivers(cfg, s, n, endpoints, ids, m.id, m.data)
  {
    SharedTableIff(ids, m.id);
    n := HopToPacket(poolsA, ids, tx, m.id, m.data, cfg, bd, evs, sent);
    NotAPacket(cfg, m.id, |m.data|);
    i := ShownOnTheWay(cfg, bd, evs, n, slot);
    PrefixKeepsSlots(evs, i);
    ShowingCalls(cfg, bd, evs[..i], n, slot, handler);
    CallToMessage(cfg, BoardAfter(cfg, bd, evs[..i]).sys, n, slot, endpoints, ids,
                  ExternalOf(ids, m.id).value, m.data, m.id);
  }
}
