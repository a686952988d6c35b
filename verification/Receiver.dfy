/** The protocol receiver as the program runs it, on the pool memory of a real message pump. */
module Receiver {
  import opened Bytes
  import opened Options
  import opened Framing
  import opened PumpModel
  import opened BoardModel
  import ReceiverModel
  import Pump

  class Receiver {
    const pump: Pump.MsgPump
    var buffer: Option<nat>
    var mode: ReceiverModel.Mode
    var received: nat
    var checkSum: byte

    ghost function Vars(): Rx
      reads this
    {
      Rx(buffer, mode, received, checkSum)
    }

    ghost function Abs(): Board
      reads this, pump, pump.hdr, pump.data, pump.receivers, pump.queue
    {
      Board(pump.Abs(), Vars())
    }

    ghost predicate Valid()
      reads this, pump, pump.hdr, pump.data, pump.receivers, pump.queue
    {
      pump.Valid() && BoardShape(pump.cfg, Abs())
    }

    /** Start-up asks the pump for the first buffer. */
    constructor (pump: Pump.MsgPump)
      requires pump.Valid() && HasPacketPool(pump.cfg)
      modifies pump, pump.hdr, pump.data
      ensures Valid() && this.pump == pump
      ensures Abs() == ResetBuffer(pump.cfg, Board(old(pump.Abs()), Rx(None, ReceiverModel.Unknown, 0, 0)))
    {
      this.pump := pump;
      buffer, mode, received, checkSum := None, ReceiverModel.Unknown, 0, 0;
      new;
      var acquired := Reset();
    }

    /** Writes one byte of the packet buffer. */
    method Write(at: nat, b: byte)
      requires Valid() && buffer.Some? && at < PACKET_SIZE
      modifies pump.data
      ensures Valid() && buffer.value < pump.cfg.elements && at < |old(pump.data[buffer.value])|
      ensures Abs() == old(Abs()).(sys := Put(pump.cfg, old(pump.Abs()), buffer.value, at, b))
    {
      BufferSize(pump.cfg, Abs());
      var e := buffer.value;
      pump.Fill(RECEIVER, e, pump.data[e][at := b]);
    }

    method Reset() returns (acquired: bool)
      requires Valid()
      modifies this, pump, pump.hdr, pump.data
      ensures Valid() && Abs() == ResetBuffer(pump.cfg, old(Abs()))
      ensures acquired <==> Acquirable(pump.cfg, old(pump.Bits()), PACKET_READY).Some?
    {
      ghost var after := ResetBuffer(pump.cfg, Abs());
      var bufPtr := pump.GetFreeBuffer(RECEIVER, PACKET_READY);
      acquired := bufPtr.Some?;
      if acquired {
        buffer := bufPtr;
        assert PoolData(pump.Bits().data, PacketPool(pump.cfg));
        pump.Fill(RECEIVER, bufPtr.value, ClearedPacket(pump.data[bufPtr.value]));
      }
      mode := ReceiverModel.Unknown;
      received := 0;
      checkSum := 0;
      assert Abs() == after;
    }

    /** The id first, then the packet bytes. */
    method StoreByte(b: byte)
      requires Valid() && buffer.Some? && received < MAX_PACKET_LEN
      modifies this, pump.data
      ensures Valid() && Abs() == Store(pump.cfg, old(Abs()), b)
    {
      ghost var after := Store(pump.cfg, Abs(), b);
      mode := ReceiverModel.Payload;
      if received == 0 {
        Write(AT_ID, b);
        received := 1;
      } else {
        Write(AT_PACKET + (received - 1), b);
        received := received + 1;
      }
      assert Abs() == after;
    }

    method WriteLength(len: byte)
      requires Valid() && buffer.Some?
      modifies pump.data
      ensures Valid() && buffer.value < pump.cfg.elements && |old(pump.data[buffer.value])| == PACKET_SIZE
      ensures Abs() == old(Abs()).(sys := PutLength(pump.cfg, old(pump.Abs()), buffer.value, len))
    {
      BufferSize(pump.cfg, Abs());
      Write(0, len);
      Write(1, 0);
    }

    method PostElement(e: nat) returns (ok: bool)
      requires Valid() && InPacketPool(pump.cfg, e)
      modifies pump, pump.hdr, pump.data, pump.queue
      ensures pump.Valid() && pump.Abs() == PostBuffer(pump.cfg, old(pump.Abs()), e)
      ensures ok == PostSucceeds(pump.cfg, old(pump.Abs()), e)
    {
      OwnBufferIsElement(pump.cfg, e);
      var pool := pump.cfg.pools[pump.table[PACKET_READY]];
      var addr := pool.addr + (e - pool.base) * (pump.cfg.overhead + pool.msgSize) + pump.cfg.overhead;
      ok := pump.PostMessage(PACKET_READY, addr, []);
    }

    /** Posts the buffer and lets go of it if the pump took it. */
    method HandOver()
      requires Valid() && buffer.Some?
      modifies this, pump, pump.hdr, pump.data, pump.queue
      ensures Valid()
      ensures var s, e := old(pump.Abs()), old(buffer.value);
              Abs() == Board(PostBuffer(pump.cfg, s, e),
                if PostSucceeds(pump.cfg, s, e) then old(Vars()).(buffer := None) else old(Vars()))
    {
      var ok := PostElement(buffer.value);
      if ok {
        buffer := None;
      }
    }

    method Post()
      requires Valid() && buffer.Some? && received >= 2
      modifies this, pump, pump.hdr, pump.data, pump.queue
      ensures Valid() && Abs() == PostPacket(pump.cfg, old(Abs()))
    {
      ghost var bd := Abs();
      WriteLength(received - 2);
      PostPacketIs(pump.cfg, bd, pump.Abs(), buffer.value);
      HandOver();
      var acquired := Reset();
    }

    method Complete()
      requires Valid() && buffer.Some?
      modifies this, pump, pump.hdr, pump.data, pump.queue
      ensures Valid() && Abs() == BoardModel.Complete(pump.cfg, old(Abs()))
    {
      ghost var after := BoardModel.Complete(pump.cfg, Abs());
      Write(AT_INTERFACE, INTERFACE);
      if received >= 2 {
        Post();
      } else {
        mode := ReceiverModel.Unknown;
      }
      assert Abs() == after;
    }

    method Finish()
      requires Valid() && buffer.Some?
      modifies this, pump, pump.hdr, pump.data, pump.queue
      ensures Valid() && Abs() == FinishPacket(pump.cfg, old(Abs()))
    {
      ghost var after := FinishPacket(pump.cfg, Abs());
      if checkSum == 0 {
        Complete();
      }
      checkSum := 0;
      received := 0;
      assert Abs() == after;
    }

    method ReceiveByte(b: byte)
      requires Valid()
      modifies this, pump, pump.hdr, pump.data, pump.queue
      ensures Valid() && Abs() == Receive(pump.cfg, old(Abs()), b)
    {
      if buffer.None? {
        var acquired := Reset();
      }
      if buffer.Some? {
        HandleByte(b);
      }
    }

    method HandleByte(b: byte)
      requires Valid() && buffer.Some?
      modifies this, pump, pump.hdr, pump.data, pump.queue
      ensures Valid() && Abs() == Handle(pump.cfg, old(Abs()), b)
    {
      ghost var after := Handle(pump.cfg, Abs(), b);
      if mode != ReceiverModel.Escaped {
        if b == BEGIN {
          mode := ReceiverModel.Payload;
          checkSum := 0;
          received := 0;
          assert Abs() == after;
          return;
        } else if b == END {
          mode := ReceiverModel.PacketEnd;
        }
      }
      if MAX_PACKET_LEN <= received {
        mode := ReceiverModel.Unknown;
        assert Abs() == after;
        return;
      }
      checkSum := Add8(checkSum, b);
      match mode
      case Payload =>
        if b == ESCAPE {
          mode := ReceiverModel.Escaped;
        } else {
          StoreByte(b);
        }
      case Escaped =>
        StoreByte(b);
      case PacketEnd =>
        checkSum := Sub8(checkSum, END);
        Finish();
      case Unknown =>
    }

    /** The bytes that an interface has received. */
    method ReceiveIndication(data: seq<byte>)
      requires Valid() && |data| < 0x10000
      modifies this, pump, pump.hdr, pump.data, pump.queue
      ensures Valid() && Abs() == ReceiveAll(pump.cfg, old(Abs()), data)
    {
      var i := 0;
      ghost var before := Abs();
      assert data[i..] == data;
      while i < |data|
        invariant 0 <= i <= |data| && Valid()
        invariant ReceiveAll(pump.cfg, Abs(), data[i..]) == ReceiveAll(pump.cfg, before, data)
      {
        assert data[i..][1..] == data[i + 1..];
        ReceiveByte(data[i]);
        i := i + 1;
      }
    }
  }
}
