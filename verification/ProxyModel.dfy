/** What happens above the frames: a packet is routed to the endpoint it names, and the message
    proxy carries pump messages from one board to another inside packets. */
module ProxyModel {
  import opened Bytes
  import opened Options
  import opened Search
  import opened Framing
  import SenderModel
  import opened PumpModel
  import opened BoardModel

  const PROXY_ENDPOINT: byte := 4

  /** One entry of the table from message ids on the wire to message ids on the board. */
  datatype IdPair = IdPair(externalID: int, internalID: int)

  const EXT_2_INT: seq<IdPair> := [IdPair(1, 5), IdPair(2, 6), IdPair(3, 2)]

  /** Wire ids fit the two bytes that carry them. */
  predicate IdsFit(ids: seq<IdPair>) {
    forall k :: 0 <= k < |ids| ==> 0 <= ids[k].externalID < 0x10000
  }

  function InternalIDs(ids: seq<IdPair>): (r: seq<int>)
    ensures |r| == |ids| && forall k :: 0 <= k < |ids| ==> r[k] == ids[k].internalID
  {
    seq(|ids|, k requires 0 <= k < |ids| => ids[k].internalID)
  }

  function ExternalIDs(ids: seq<IdPair>): (r: seq<int>)
    ensures |r| == |ids| && forall k :: 0 <= k < |ids| ==> r[k] == ids[k].externalID
  {
    seq(|ids|, k requires 0 <= k < |ids| => ids[k].externalID)
  }

  function PoolIDs(pools: seq<Pool>): (r: seq<int>)
    ensures |r| == |pools| && forall k :: 0 <= k < |pools| ==> r[k] == pools[k].id
  {
    seq(|pools|, k requires 0 <= k < |pools| => pools[k].id)
  }

  /** The first entry for a board's id, the first entry for a wire id, and the first pool of an
      id, each at or behind `i`. */
  function FirstInternal(ids: seq<IdPair>, id: int, i: nat): (r: Option<nat>)
    requires i <= |ids|
    ensures r.Some? ==> i <= r.value < |ids| && ids[r.value].internalID == id
  {
    FirstIndex(InternalIDs(ids), id, i)
  }

  function FirstExternal(ids: seq<IdPair>, id: int, i: nat): (r: Option<nat>)
    requires i <= |ids|
    ensures r.Some? ==> i <= r.value < |ids| && ids[r.value].externalID == id
  {
    FirstIndex(ExternalIDs(ids), id, i)
  }

  function FirstPool(pools: seq<Pool>, id: int, i: nat): (r: Option<nat>)
    requires i <= |pools|
    ensures r.Some? ==> i <= r.value < |pools| && pools[r.value].id == id
  {
    FirstIndex(PoolIDs(pools), id, i)
  }

  function ExternalOf(ids: seq<IdPair>, id: int): Option<int> {
    match FirstInternal(ids, id, 0)
    case Some(k) => Some(ids[k].externalID)
    case None => None
  }

  function InternalOf(ids: seq<IdPair>, id: int): Option<int> {
    match FirstExternal(ids, id, 0)
    case Some(k) => Some(ids[k].internalID)
    case None => None
  }

  /** A message id as it lies in memory, low byte first. */
  function IdBytes(id: int): (r: seq<byte>)
    requires 0 <= id < 0x10000
    ensures |r| == 2
  {
    [id % 256, id / 256]
  }

  function IdOf(low: byte, high: byte): nat {
    var l: nat, h: nat := low, high;
    l + 256 * h
  }

  // ---- Outgoing ----

  /** What the proxy does with a message that was posted on this board. */
  function Outgoing(pools: seq<Pool>, ids: seq<IdPair>, s: SenderModel.State,
                    id: int, data: seq<byte>): SenderModel.State
    requires IdsFit(ids)
    requires FirstPool(pools, id, 0).Some? ==> |data| >= pools[FirstPool(pools, id, 0).value].msgSize
  {
    var e, k := ExternalOf(ids, id), FirstPool(pools, id, 0);
    if e.None? || k.None? then s
    else
      var size := pools[k.value].msgSize;
      var begun := SenderModel.BeginFrame(s, 0, (size + 2) % 0x10000, PROXY_ENDPOINT);
      var named := SenderModel.InsideFrame(begun, 0, IdBytes(e.value));
      SenderModel.EndFrame(SenderModel.InsideFrame(named, 0, data[..size]), 0)
  }

  /** An idle sender puts the message on the wire as one frame for the proxy endpoint, wire id
      first; a message without a wire id or a pool is not sent. */
  lemma OutgoingIsOneFrame(pools: seq<Pool>, ids: seq<IdPair>, s: SenderModel.State, id: int, data: seq<byte>)
    requires IdsFit(ids) && !s.isSending
    requires FirstPool(pools, id, 0).Some? ==> |data| == pools[FirstPool(pools, id, 0).value].msgSize
    ensures Outgoing(pools, ids, s, id, data) ==
            if ExternalOf(ids, id).None? || FirstPool(pools, id, 0).None? then s
            else
              var payload := IdBytes(ExternalOf(ids, id).value) + data;
              SenderModel.State(s.wire + Encode(PROXY_ENDPOINT, payload), 0, 0, 0, false)
  {
    var e, k := ExternalOf(ids, id), FirstPool(pools, id, 0);
    if e.Some? && k.Some? {
      var name := IdBytes(e.value);
      assert data[..|data|] == data;
      var begun := SenderModel.BeginFrame(s, 0, (|data| + 2) % 0x10000, PROXY_ENDPOINT);
      EscapeOne(PROXY_ENDPOINT);
      assert SenderModel.FrameOpen(begun, s.wire + [BEGIN], PROXY_ENDPOINT, []);
      SenderModel.PieceAccumulates(begun, s.wire + [BEGIN], PROXY_ENDPOINT, [], name);
      assert [] + name == name;
      var named := SenderModel.InsideFrame(begun, 0, name);
      SenderModel.PieceAccumulates(named, s.wire + [BEGIN], PROXY_ENDPOINT, name, data);
      SenderModel.EndClosesFrame(SenderModel.InsideFrame(named, 0, data), s.wire, PROXY_ENDPOINT, name + data);
    }
  }

  /** While another frame is open the message does not become a frame of its own: its wire id and
      bytes end up in the open frame, and that is closed behind them. */
  lemma OutgoingInsideFrame(pools: seq<Pool>, ids: seq<IdPair>, s: SenderModel.State, id: int, data: seq<byte>,
                            wire: seq<byte>, other: byte, payload: seq<byte>)
    requires IdsFit(ids) && ExternalOf(ids, id).Some? && FirstPool(pools, id, 0).Some?
    requires |data| == pools[FirstPool(pools, id, 0).value].msgSize
    requires SenderModel.FrameOpen(s, wire + [BEGIN], other, payload)
    ensures Outgoing(pools, ids, s, id, data) ==
            SenderModel.State(wire + Encode(other, payload + IdBytes(ExternalOf(ids, id).value) + data), 0, 0, 0, false)
  {
    var name := IdBytes(ExternalOf(ids, id).value);
    assert data[..|data|] == data;
    SenderModel.PieceAccumulates(s, wire + [BEGIN], other, payload, name);
    var named := SenderModel.InsideFrame(s, 0, name);
    SenderModel.PieceAccumulates(named, wire + [BEGIN], other, payload + name, data);
    SenderModel.EndClosesFrame(SenderModel.InsideFrame(named, 0, data), wire, other, payload + name + data);
  }

  /** For instance the bytes on the wire of a message 5 of four zeros, whose wire id is 1. */
  lemma OutgoingExample(pools: seq<Pool>)
    requires FirstPool(pools, 5, 0).Some? && pools[FirstPool(pools, 5, 0).value].msgSize == 4
    ensures IdsFit(EXT_2_INT)
    ensures Outgoing(pools, EXT_2_INT, SenderModel.INITIAL, 5, [0, 0, 0, 0]).wire ==
            [0xf0, 4, 1, 0, 0, 0, 0, 0, 0xfb, 0x0f]
  {
    assert ExternalOf(EXT_2_INT, 5) == Some(1) by { assert InternalIDs(EXT_2_INT)[0] == 5; }
    OutgoingIsOneFrame(pools, EXT_2_INT, SenderModel.INITIAL, 5, [0, 0, 0, 0]);
    assert IdBytes(1) + [0, 0, 0, 0] == [1, 0, 0, 0, 0, 0];
    ExampleFrame();
    assert [] + Encode(4, [1, 0, 0, 0, 0, 0]) == Encode(4, [1, 0, 0, 0, 0, 0]);
  }

  lemma ExampleFrame()
    ensures Encode(4, [1, 0, 0, 0, 0, 0]) == [0xf0, 4, 1, 0, 0, 0, 0, 0, 0xfb, 0x0f]
  {
    var payload: seq<byte>, content: seq<byte> := [1, 0, 0, 0, 0, 0], [4, 1, 0, 0, 0, 0, 0];
    SumOfFew();
    PlainFrame(4, payload, content);
    assert [0xf0] + content + [0xfb] + [0x0f] == [0xf0, 4, 1, 0, 0, 0, 0, 0, 0xfb, 0x0f];
  }

  lemma SumOfFew()
    ensures Sum8([4, 1, 0, 0, 0, 0, 0]) == 5
  {
    Sum8IsTotalMod256([4, 1, 0, 0, 0, 0, 0]);
    assert [4, 1, 0, 0, 0, 0, 0][1..] == [1, 0, 0, 0, 0, 0];
    assert [1, 0, 0, 0, 0, 0][1..] == [0, 0, 0, 0, 0];
    assert [0, 0, 0, 0, 0][1..] == [0, 0, 0, 0] && [0, 0, 0, 0][1..] == [0, 0, 0];
    assert [0, 0, 0][1..] == [0, 0] && [0, 0][1..] == [0] && [0][1..] == [];
  }

  // ---- Incoming ----

  /** The call that the dispatcher makes for a packet buffer: to the first endpoint with its id. */
  datatype EndpointCall = EndpointCall(endpoint: nat, packet: seq<byte>, len: nat, interface: byte)

  function Dispatched(endpoints: seq<byte>, id: int, bytes: seq<byte>): Option<EndpointCall>
    requires |bytes| == PACKET_SIZE
  {
    var k := FirstIndex(endpoints, bytes[AT_ID], 0);
    if id == PACKET_READY && k.Some? then
      Some(EndpointCall(k.value, bytes[AT_PACKET..], PayloadLen(bytes), bytes[AT_INTERFACE]))
    else None
  }

  /** The call that belongs to a packet: to the first endpoint with the packet's id, with its payload
      and an interface that the board has. */
  predicate RoutedTo(endpoints: seq<byte>, c: EndpointCall, p: Packet) {
    && c.endpoint < |endpoints| && endpoints[c.endpoint] == p.id
    && (forall j :: 0 <= j < c.endpoint ==> endpoints[j] != p.id)
    && c.len == |p.payload| <= |c.packet| && c.packet[..c.len] == p.payload
    && c.interface < SenderModel.INTERFACES
  }

  /** Every packet that the receiver posts is routed to its own endpoint, if the board has one, and
      to none otherwise; other messages call no endpoint. */
  lemma PacketIsRouted(endpoints: seq<byte>, m: Message, p: Packet)
    requires MeansPacket(m, p)
    ensures var c := Dispatched(endpoints, m.id, m.bytes);
            (c.Some? <==> p.id in endpoints) && (c.Some? ==> RoutedTo(endpoints, c.value, p))
    ensures forall other :: other != PACKET_READY ==> Dispatched(endpoints, other, m.bytes).None?
  {
    var k := FirstIndex(endpoints, p.id, 0);
    assert m.bytes[AT_PACKET..][..|p.payload|] == m.bytes[AT_PACKET..AT_PACKET + |p.payload|];
  }

  datatype PostRequest = PostRequest(id: int, data: seq<byte>)

  /** What the proxy endpoint posts for a packet of `len` bytes. The size is computed in 16 bits. */
  function Incoming(pools: seq<Pool>, ids: seq<IdPair>, packet: seq<byte>, len: nat): Option<PostRequest>
    requires |packet| >= 2
  {
    var id := InternalOf(ids, IdOf(packet[0], packet[1]));
    if id.None? then None
    else
      var k := FirstPool(pools, id.value, 0);
      if k.Some? && pools[k.value].msgSize == MessageSize(len) then Some(PostRequest(id.value, packet[2..]))
      else None
  }

  function MessageSize(len: nat): nat {
    if len >= 2 then len - 2 else 0x10000 + len - 2
  }

  /** Incoming undoes outgoing: the packet that carries a message is posted again as that message,
      under the board's own id for it, exactly if the board declares that id with the same size. */
  lemma IncomingOfOutgoing(pools: seq<Pool>, ids: seq<IdPair>, wireID: int, data: seq<byte>, packet: seq<byte>)
    requires 0 <= wireID < 0x10000
    requires |packet| >= 2 + |data| && packet[..2 + |data|] == IdBytes(wireID) + data
    ensures var r, id := Incoming(pools, ids, packet, 2 + |data|), InternalOf(ids, wireID);
            && (r.Some? <==> id.Some? && FirstPool(pools, id.value, 0).Some? &&
                             pools[FirstPool(pools, id.value, 0).value].msgSize == |data|)
            && (r.Some? ==> r.value.id == id.value && |r.value.data| >= |data| && r.value.data[..|data|] == data)
  {
    var head := packet[..2 + |data|];
    assert packet[0] == head[0] == IdBytes(wireID)[0];
    assert packet[1] == head[1] == IdBytes(wireID)[1];
    assert IdOf(packet[0], packet[1]) == wireID;
    assert packet[2..][..|data|] == head[2..] == data;
  }

  // ---- Passing on ----

  /** Passing a packet on to the first n interfaces, but not to the one it came from. */
  function Forwarded(s: SenderModel.State, interface: byte, packet: seq<byte>, n: nat): SenderModel.State {
    if n == 0 then s
    else
      var before := Forwarded(s, interface, packet, n - 1);
      if interface != n - 1 then SenderModel.Message(before, n - 1, PROXY_ENDPOINT, packet) else before
  }

  /** A packet that came in on an interface of the board is not sent back there: with one interface
      nothing is sent at all. */
  lemma NothingGoesBack(s: SenderModel.State, interface: byte, packet: seq<byte>)
    requires interface < SenderModel.INTERFACES
    ensures Forwarded(s, interface, packet, SenderModel.INTERFACES) == s
  {
    assert Forwarded(s, interface, packet, 0) == s;
  }

  /** One from elsewhere is passed on as one frame. */
  lemma ElsewhereIsPassedOn(s: SenderModel.State, interface: byte, packet: seq<byte>)
    requires interface >= SenderModel.INTERFACES && !s.isSending
    ensures Forwarded(s, interface, packet, SenderModel.INTERFACES)
         == s.(wire := s.wire + Encode(PROXY_ENDPOINT, packet))
  {
    assert Forwarded(s, interface, packet, 0) == s;
  }

  /** A message keeps its id across a shared table exactly when no earlier entry has its wire id. */
  lemma SharedTableIff(ids: seq<IdPair>, id: int)
    requires ExternalOf(ids, id).Some?
    ensures InternalOf(ids, ExternalOf(ids, id).value) == Some(id) <==>
            (var k := FirstInternal(ids, id, 0).value;
             forall j :: 0 <= j < k ==> ids[j].externalID != ids[k].externalID)
  {
    var k := FirstInternal(ids, id, 0).value;
    var f := FirstExternal(ids, ids[k].externalID, 0);
    assert f.Some? && f.value <= k;
  }

  lemma ShippedTable(id: int)
    requires ExternalOf(EXT_2_INT, id).Some?
    ensures IdsFit(EXT_2_INT) && InternalOf(EXT_2_INT, ExternalOf(EXT_2_INT, id).value) == Some(id)
  {
    SharedTableIff(EXT_2_INT, id);
  }
}
