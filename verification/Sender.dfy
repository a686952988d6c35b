/** The sending side of the serial protocol: one frame at a time in one call, or a frame
    streamed in pieces between a begin and an end. */
module SenderModel {
  import opened Bytes
  import opened Framing

  const INTERFACES := 1

  /** One interface's send state, and all the bytes it has put on the wire. */
  datatype State = State(wire: seq<byte>, payloadLen: nat, bytesTransmitted: nat,
                         checksum: byte, isSending: bool)

  const INITIAL := State([], 0, 0, 0, false)

  function Message(s: State, interface: nat, id: byte, data: seq<byte>): State {
    if interface < INTERFACES && !s.isSending then s.(wire := s.wire + Encode(id, data)) else s
  }

  function BeginFrame(s: State, interface: nat, payloadLen: nat, id: byte): State {
    if interface < INTERFACES && !s.isSending then
      State(s.wire + [BEGIN] + EscapeByte(id), payloadLen, 0, Sum8(EscapeByte(id)), true)
    else s
  }

  /** Unlike the other calls this one does not ask whether a frame is open. */
  function InsideFrame(s: State, interface: nat, data: seq<byte>): State {
    if interface < INTERFACES then
      s.(wire := s.wire + Escape(data),
         checksum := Add8(s.checksum, Sum8(Escape(data))),
         bytesTransmitted := (s.bytesTransmitted + |data|) % 0x10000)
    else s
  }

  function EndFrame(s: State, interface: nat): State {
    if interface < INTERFACES then
      State(s.wire + CheckBytes(s.checksum) + [END], 0, 0, 0, false)
    else s
  }

  // ---- Streamed frames ----

  /** What may be called between begin and end: the pieces of the frame, and whole messages
      from elsewhere that must not get in between. */
  datatype Call = Piece(data: seq<byte>) | Whole(id: byte, data: seq<byte>)

  function Calls(s: State, calls: seq<Call>): State {
    if |calls| == 0 then s
    else
      var before := Calls(s, calls[..|calls| - 1]);
      match calls[|calls| - 1]
      case Piece(data) => InsideFrame(before, 0, data)
      case Whole(id, data) => Message(before, 0, id, data)
  }

  function Pieces(calls: seq<Call>): seq<byte> {
    if |calls| == 0 then []
    else
      var before := Pieces(calls[..|calls| - 1]);
      var last := calls[|calls| - 1];
      if last.Piece? then before + last.data else before
  }

  /** The state of a sender that has begun a frame on `wire` and sent `payload` inside it. */
  predicate FrameOpen(s: State, wire: seq<byte>, id: byte, payload: seq<byte>) {
    && s.isSending
    && s.wire == wire + Stuffed(id, payload)
    && s.checksum == Sum8(Stuffed(id, payload))
  }

  lemma PieceAccumulates(s: State, wire: seq<byte>, id: byte, payload: seq<byte>, data: seq<byte>)
    requires FrameOpen(s, wire, id, payload)
    ensures FrameOpen(InsideFrame(s, 0, data), wire, id, payload + data)
  {
    StuffedConcat(id, payload, data);
    Assoc(wire, Stuffed(id, payload), Escape(data));
  }

  lemma {:induction false} CallsAccumulate(s: State, wire: seq<byte>, id: byte, calls: seq<Call>)
    requires FrameOpen(s, wire, id, [])
    ensures FrameOpen(Calls(s, calls), wire, id, Pieces(calls))
  {
    if |calls| != 0 {
      var before, last := calls[..|calls| - 1], calls[|calls| - 1];
      CallsAccumulate(s, wire, id, before);
      if last.Piece? {
        PieceAccumulates(Calls(s, before), wire, id, Pieces(before), last.data);
      }
    }
  }

  lemma {:induction false} CallsCount(s: State, calls: seq<Call>)
    requires s.isSending && s.bytesTransmitted == 0
    ensures var t := Calls(s, calls);
            t.isSending && t.payloadLen == s.payloadLen && t.bytesTransmitted == |Pieces(calls)| % 0x10000
  {
    if |calls| != 0 {
      CallsCount(s, calls[..|calls| - 1]);
    }
  }

  /** From the begin on the sender counts the frame's payload bytes in 16 bits, and remembers the
      length that the begin announced. */
  lemma CallsAreCounted(s: State, id: byte, len: nat, calls: seq<Call>)
    requires !s.isSending
    ensures var t := Calls(BeginFrame(s, 0, len, id), calls);
            t.isSending && t.payloadLen == len && t.bytesTransmitted == |Pieces(calls)| % 0x10000
  {
    CallsCount(BeginFrame(s, 0, len, id), calls);
  }

  lemma EndClosesFrame(s: State, wire: seq<byte>, id: byte, payload: seq<byte>)
    requires FrameOpen(s, wire + [BEGIN], id, payload)
    ensures EndFrame(s, 0) == State(wire + Encode(id, payload), 0, 0, 0, false)
  {
    var stuffed := Stuffed(id, payload);
    var close := CheckBytes(Sum8(stuffed));
    calc {
      wire + [BEGIN] + stuffed + close + [END];
      { Assoc(wire + [BEGIN], stuffed, close); }
      wire + [BEGIN] + Body(id, payload) + [END];
      { Assoc(wire, [BEGIN], Body(id, payload)); Assoc(wire, [BEGIN] + Body(id, payload), [END]); }
      wire + Encode(id, payload);
    }
  }

  /** Streamed equals one-shot: however the payload is split, and whatever whole messages are
      tried in between, the frame on the wire is that of the concatenated payload, and the
      send state afterwards is that of an idle sender. */
  lemma StreamedEqualsOneShot(s: State, id: byte, len: nat, calls: seq<Call>)
    requires !s.isSending
    ensures EndFrame(Calls(BeginFrame(s, 0, len, id), calls), 0)
         == State(Message(s, 0, id, Pieces(calls)).wire, 0, 0, 0, false)
  {
    EscapeOne(id);
    CallsAccumulate(BeginFrame(s, 0, len, id), s.wire + [BEGIN], id, calls);
    EndClosesFrame(Calls(BeginFrame(s, 0, len, id), calls), s.wire, id, Pieces(calls));
  }
}

module Sender {
  import opened Bytes
  import opened Framing
  import opened SenderModel

  class Sender {
    /** The bytes handed to the physical send function so far. */
    var wire: seq<byte>
    var payloadLen: nat
    var bytesTransmitted: nat
    var checksum: byte
    var isSending: bool

    ghost function Abs(): State
      reads this
    {
      State(wire, payloadLen, bytesTransmitted, checksum, isSending)
    }

    constructor ()
      ensures Abs() == INITIAL
    {
      wire, payloadLen, bytesTransmitted, checksum, isSending := [], 0, 0, 0, false;
    }

    method Send(data: byte, escape: bool) returns (ret: byte)
      modifies this`wire
      ensures wire == old(wire) + if escape then EscapeByte(data) else [data]
      ensures ret == if escape then Sum8(EscapeByte(data)) else data
    {
      SumOfEscapeByte(data);
      ret := 0;
      if escape && (data == BEGIN || data == END || data == ESCAPE) {
        wire := wire + [ESCAPE];
        ret := Add8(ret, ESCAPE);
      }
      ret := Add8(ret, data);
      wire := wire + [data];
    }

    method SendChecksum(sum: byte)
      modifies this`wire
      ensures wire == old(wire) + CheckBytes(sum)
    {
      var current := sum;
      var check := Add8(Not8(current), 1);
      if check == BEGIN || check == END || check == ESCAPE {
        wire := wire + [ESCAPE];
        current := Add8(current, ESCAPE);
      }
      check := Add8(Not8(current), 1);
      wire := wire + [check];
    }

    method SendMessage(interface: nat, id: byte, data: seq<byte>)
      requires |data| < 0x10000
      modifies this`wire
      ensures Abs() == Message(old(Abs()), interface, id, data)
    {
      if interface < INTERFACES {
        if !isSending {
          var sum: byte := 0;
          var ret := Send(BEGIN, false);
          ret := Send(id, true);
          sum := Add8(sum, ret);
          EscapeOne(id);
          ghost var base := old(wire) + [BEGIN];
          var i := 0;
          while i < |data|
            invariant 0 <= i <= |data|
            invariant wire == base + Stuffed(id, data[..i])
            invariant sum == Sum8(Stuffed(id, data[..i]))
          {
            ret := Send(data[i], true);
            sum := Add8(sum, ret);
            StuffedByte(base, id, data, i);
            i := i + 1;
          }
          assert data[..i] == data;
          SendChecksum(sum);
          ret := Send(END, false);
          EndClosesFrame(State(base + Stuffed(id, data), 0, 0, sum, true), old(wire), id, data);
        }
      }
    }

    method BeginTransmittingFrame(interface: nat, len: nat, id: byte)
      modifies this
      ensures Abs() == BeginFrame(old(Abs()), interface, len, id)
    {
      if interface < INTERFACES {
        if !isSending {
          checksum := 0;
          bytesTransmitted := 0;
          payloadLen := len;
          isSending := true;
          var ret := Send(BEGIN, false);
          ret := Send(id, true);
          checksum := Add8(checksum, ret);
        }
      }
    }

    method SendInsideFrame(interface: nat, data: seq<byte>)
      requires |data| < 0x10000
      modifies this
      ensures Abs() == InsideFrame(old(Abs()), interface, data)
    {
      if interface < INTERFACES {
        ghost var base, start := wire, checksum;
        var i := 0;
        assert data[..i] == [];
        while i < |data|
          invariant 0 <= i <= |data|
          invariant wire == base + Escape(data[..i])
          invariant checksum == Add8(start, Sum8(Escape(data[..i])))
          invariant payloadLen == old(payloadLen) && isSending == old(isSending)
          invariant bytesTransmitted == old(bytesTransmitted)
        {
          var ret := Send(data[i], true);
          checksum := Add8(checksum, ret);
          EscapedByte(base, start, data, i);
          i := i + 1;
        }
        assert data[..i] == data;
        bytesTransmitted := (bytesTransmitted + |data|) % 0x10000;
      }
    }

    method EndTransmittingFrame(interface: nat)
      modifies this
      ensures Abs() == EndFrame(old(Abs()), interface)
    {
      if interface < INTERFACES {
        SendChecksum(checksum);
        var ret := Send(END, false);
        checksum := 0;
        bytesTransmitted := 0;
        isSending := false;
        payloadLen := 0;
      }
    }
  }

  lemma EscapedByte(wire: seq<byte>, start: byte, data: seq<byte>, i: nat)
    requires i < |data|
    ensures wire + Escape(data[..i]) + EscapeByte(data[i]) == wire + Escape(data[..i + 1])
    ensures Add8(Add8(start, Sum8(Escape(data[..i]))), Sum8(EscapeByte(data[i])))
         == Add8(start, Sum8(Escape(data[..i + 1])))
  {
    assert data[..i + 1] == data[..i] + [data[i]];
    EscapeSnoc(data[..i], data[i]);
    Sum8Concat(Escape(data[..i]), EscapeByte(data[i]));
    Assoc(wire, Escape(data[..i]), EscapeByte(data[i]));
  }

  lemma StuffedByte(wire: seq<byte>, id: byte, data: seq<byte>, i: nat)
    requires i < |data|
    ensures wire + Stuffed(id, data[..i]) + EscapeByte(data[i]) == wire + Stuffed(id, data[..i + 1])
    ensures Add8(Sum8(Stuffed(id, data[..i])), Sum8(EscapeByte(data[i]))) == Sum8(Stuffed(id, data[..i + 1]))
  {
    assert data[..i + 1] == data[..i] + [data[i]];
    StuffedConcat(id, data[..i], [data[i]]);
    EscapeOne(data[i]);
    Assoc(wire, Stuffed(id, data[..i]), EscapeByte(data[i]));
  }
}
