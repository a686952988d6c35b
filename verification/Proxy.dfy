/** The packet dispatcher and the message proxy as the program runs them. */
module Proxy {
  import opened Bytes
  import opened Options
  import opened Search
  import opened PumpModel
  import opened BoardModel
  import opened ProxyModel
  import SenderModel
  import Sender
  import Pump

  /** The callback that the pump makes for a packet: it searches the endpoint table and calls the
      first endpoint with the packet's id. */
  method OnReceivedPacket(endpoints: seq<byte>, id: int, bytes: seq<byte>) returns (call: Option<EndpointCall>)
    requires |bytes| == PACKET_SIZE
    ensures call == Dispatched(endpoints, id, bytes)
  {
    call := None;
    var targetID := bytes[AT_ID];
    if id == PACKET_READY {
      var iter := 0;
      while iter < |endpoints|
        invariant 0 <= iter <= |endpoints| && call == None
        invariant FirstIndex(endpoints, targetID, iter) == FirstIndex(endpoints, targetID, 0)
      {
        if targetID == endpoints[iter] {
          call := Some(EndpointCall(iter, bytes[AT_PACKET..], PayloadLen(bytes), bytes[AT_INTERFACE]));
          break;
        }
        iter := iter + 1;
      }
    }
  }

  /** The table search and the pool search agree, because ids are unique. */
  lemma LookupIsFirstPool(cfg: Config, id: int)
    requires WellFormed(cfg)
    ensures Lookup(cfg, id) == FirstPool(cfg.pools, id, 0)
  {
    var k := Lookup(cfg, id);
    if k.Some? {
      SameID(cfg, k.value, FirstPool(cfg.pools, id, 0).value);
    }
  }

  /** What the proxy endpoint posts, the pump can be asked to post: packet lengths below 2 make
      the 16-bit size wrap around, but no pool has such a size. */
  lemma IncomingIsCallable(cfg: Config, ids: seq<IdPair>, packet: seq<byte>, len: nat, addr: int)
    requires WellFormed(cfg) && 2 <= |packet| && len <= |packet| && 0 <= addr < ADDRESSES
    ensures RequestCallable(cfg, Incoming(cfg.pools, ids, packet, len), addr)
  {
    var r := Incoming(cfg.pools, ids, packet, len);
    if r.Some? {
      LookupIsFirstPool(cfg, r.value.id);
      assert PoolOk(cfg, cfg.pools[Lookup(cfg, r.value.id).value]);
      WrappedSize(len);
    }
  }

  ghost predicate RequestCallable(cfg: Config, r: Option<PostRequest>, addr: int) {
    r.Some? ==> PostCallable(cfg, r.value.id, addr, r.value.data)
  }

  /** The pump after a request to post what lies at `addr`, or after no request. */
  ghost function Requested(cfg: Config, s: Sys, r: Option<PostRequest>, addr: int): Sys
    requires WellFormed(cfg) && SysShape(cfg, s) && RequestCallable(cfg, r, addr)
  {
    if r.None? then s else PostStep(cfg, s, r.value.id, addr, r.value.data)
  }

  lemma WrappedSize(len: nat)
    ensures MessageSize(len) % 4 == 0 ==> len >= 2 && MessageSize(len) == len - 2
  {
  }

  class Proxy {
    const pump: Pump.MsgPump
    const sender: Sender.Sender
    const ids: seq<IdPair>

    constructor (pump: Pump.MsgPump, sender: Sender.Sender, ids: seq<IdPair>)
      ensures this.pump == pump && this.sender == sender && this.ids == ids
    {
      this.pump, this.sender, this.ids := pump, sender, ids;
    }

    /** Called by the pump with a message of this board: sends it if it has a wire id. */
    method MsgCallback(id: int, data: seq<byte>)
      requires WellFormed(pump.cfg) && IdsFit(ids) && |data| < 0x10000
      requires FirstPool(pump.cfg.pools, id, 0).Some? ==>
                 |data| >= pump.cfg.pools[FirstPool(pump.cfg.pools, id, 0).value].msgSize
      modifies sender
      ensures sender.Abs() == Outgoing(pump.cfg.pools, ids, old(sender.Abs()), id, data)
    {
      var externalID := 0;
      var canSendMessage := false;
      var i := 0;
      while i < |ids|
        invariant 0 <= i <= |ids| && !canSendMessage
        invariant FirstInternal(ids, id, i) == FirstInternal(ids, id, 0)
      {
        if ids[i].internalID == id {
          externalID := ids[i].externalID;
          canSendMessage := true;
          break;
        }
        i := i + 1;
      }
      if canSendMessage {
        var desc := 0;
        while desc < |pump.cfg.pools|
          invariant 0 <= desc <= |pump.cfg.pools|
          invariant FirstPool(pump.cfg.pools, id, desc) == FirstPool(pump.cfg.pools, id, 0)
          invariant sender.Abs() == old(sender.Abs())
        {
          if id == pump.cfg.pools[desc].id {
            var size := pump.cfg.pools[desc].msgSize;
            sender.BeginTransmittingFrame(0, (size + 2) % 0x10000, PROXY_ENDPOINT);
            sender.SendInsideFrame(0, IdBytes(externalID));
            sender.SendInsideFrame(0, data[..size]);
            sender.EndTransmittingFrame(0);
            break;
          }
          desc := desc + 1;
        }
      }
    }

    /** Called by the dispatcher with a packet of `len` bytes at address `addr`, received on
        `interface`: posts the message it carries, and passes the packet on to all other
        interfaces. */
    method IncomingEndpoint(packet: seq<byte>, addr: int, len: nat, interface: byte)
      requires pump.Valid() && 2 <= |packet| && len <= |packet| < 0x10000 && 0 <= addr < ADDRESSES - 2
      modifies pump, pump.hdr, pump.data, pump.queue, sender
      ensures pump.Valid()
      ensures RequestCallable(pump.cfg, Incoming(pump.cfg.pools, ids, packet, len), addr + 2)
      ensures pump.Abs() == Requested(pump.cfg, old(pump.Abs()), Incoming(pump.cfg.pools, ids, packet, len), addr + 2)
      ensures sender.Abs() == Forwarded(old(sender.Abs()), interface, packet[..len], SenderModel.INTERFACES)
    {
      var r := PostNext(packet, addr, len);
      Forward(packet[..len], interface);
    }

    /** Passes a packet on to all interfaces but the one it came from. */
    method Forward(packet: seq<byte>, interface: byte)
      requires |packet| < 0x10000
      modifies sender
      ensures sender.Abs() == Forwarded(old(sender.Abs()), interface, packet, SenderModel.INTERFACES)
    {
      var i := 0;
      while i < SenderModel.INTERFACES
        invariant 0 <= i <= SenderModel.INTERFACES
        invariant sender.Abs() == Forwarded(old(sender.Abs()), interface, packet, i)
      {
        if interface != i {
          sender.SendMessage(i, PROXY_ENDPOINT, packet);
        }
        i := i + 1;
      }
    }

    /** The receiving half of `IncomingEndpoint`. */
    method PostNext(packet: seq<byte>, addr: int, len: nat) returns (r: Option<PostRequest>)
      requires pump.Valid() && 2 <= |packet| && len <= |packet| < 0x10000 && 0 <= addr < ADDRESSES - 2
      modifies pump, pump.hdr, pump.data, pump.queue
      ensures r == Incoming(pump.cfg.pools, ids, packet, len)
      ensures pump.Valid() && RequestCallable(pump.cfg, r, addr + 2)
      ensures pump.Abs() == Requested(pump.cfg, old(pump.Abs()), r, addr + 2)
    {
      r := AcceptCallable(packet, addr, len);
      PostRequested(r, addr + 2);
    }

    method AcceptCallable(packet: seq<byte>, addr: int, len: nat) returns (r: Option<PostRequest>)
      requires WellFormed(pump.cfg) && 2 <= |packet| && len <= |packet| < 0x10000 && 0 <= addr < ADDRESSES - 2
      ensures r == Incoming(pump.cfg.pools, ids, packet, len) && RequestCallable(pump.cfg, r, addr + 2)
    {
      r := Accept(packet, len);
      IncomingIsCallable(pump.cfg, ids, packet, len, addr + 2);
    }

    method PostRequested(r: Option<PostRequest>, addr: int)
      requires pump.Valid() && RequestCallable(pump.cfg, r, addr)
      modifies pump, pump.hdr, pump.data, pump.queue
      ensures pump.Valid() && pump.Abs() == Requested(pump.cfg, old(pump.Abs()), r, addr)
    {
      if r.Some? {
        var ok := pump.PostMessage(r.value.id, addr, r.value.data);
      }
    }

    /** Looks for a message of this board that fits the packet. */
    method Accept(packet: seq<byte>, len: nat) returns (r: Option<PostRequest>)
      requires WellFormed(pump.cfg) && 2 <= |packet| && len < 0x10000
      ensures r == Incoming(pump.cfg.pools, ids, packet, len)
    {
      r := None;
      var incomingID := IdOf(packet[0], packet[1]);
      var incomingSize := (len - 2) % 0x10000;
      var internalID := 0;
      var canReceiveMessage := false;
      var i := 0;
      while i < |ids|
        invariant 0 <= i <= |ids| && !canReceiveMessage
        invariant FirstExternal(ids, incomingID, i) == FirstExternal(ids, incomingID, 0)
      {
        if ids[i].externalID == incomingID {
          internalID := ids[i].internalID;
          canReceiveMessage := true;
          break;
        }
        i := i + 1;
      }
      if canReceiveMessage {
        var desc := 0;
        while desc < |pump.cfg.pools|
          invariant 0 <= desc <= |pump.cfg.pools| && r == None
          invariant FirstPool(pump.cfg.pools, internalID, desc) == FirstPool(pump.cfg.pools, internalID, 0)
        {
          if internalID == pump.cfg.pools[desc].id {
            if pump.cfg.pools[desc].msgSize == incomingSize {
              r := Some(PostRequest(internalID, packet[2..]));
            }
            break;
          }
          desc := desc + 1;
        }
      }
    }
  }
}
