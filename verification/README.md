# Powerboard framework: a verified model

The firmware of the power board runs on a small event framework. Three of its parts carry the
weight: a byte-stuffed serial protocol, a message pump that hands reference-counted buffers to
callbacks, and a software timer. This project models them in Dafny, together with the message
proxy that joins the first two into board-to-board messaging, and the battery check.

`dafny verify dfyconfig.toml` checks everything.

## How the model is built

- **Wire format** (`Bytes`, `Framing`). Escaping, the additive 8-bit checksum and whole frames are
  functions. `Framing.Decode` says what a byte stream means to someone who sees all of it; `Damage`
  is about frames that are too long or cut short.
- **Sender** (`SenderModel`, `Sender`). The class emits byte by byte with a running checksum; its
  methods are proved equal to functions of the send state.
- **Receiver** (`ReceiverModel`, `BoardModel`, `Receiver`). `ReceiverModel` is the four-mode machine
  with the pump's answers as inputs. `BoardModel` is the same machine writing into pool memory of a
  real pump. The class `Receiver` runs on the class `MsgPump`.
- **Message pump** (`PumpModel`, `PumpInvariant`, `PumpRuns`, `Pump`). Every step that the code
  performs under its mutex is one step of the model; the dispatcher's treatment of one message is
  eight steps, and any other step may come in between. `PumpModel.Sys` couples the pump with a
  ledger (owners, outstanding locks, the history of posts and of looks at receiver slots) that the
  pump's own decisions never consult. The class `MsgPump` changes arrays in place; its ledger is
  ghost.
- **Runs.** `PumpRuns` and `BoardRuns` are about all finite runs: any number of disciplined clients,
  the dispatcher, and received bytes, interleaved in any order. Disciplined means: a client fills
  and posts only elements it holds, locks only messages that are alive, and returns only locks it
  took. `PumpRuns.KeepsInvIff` says exactly which steps, disciplined or not, keep the invariant.
- **Clients** (`Clients`). What acquiring, holding, posting and locking give to a client.
- **Calls** (`Calls`, `BoardCalls`). Which callbacks are called with which messages.
- **Capacity** (`Burst`). How many packets a board takes in before it must dispatch.
- **Proxy and dispatcher** (`ProxyModel`, `Proxy`, `EndToEnd`, `Relay`). In `Relay` the proxy's posts
  are steps of the receiving board's run: the dispatcher waits for its callback to return, and
  everything else goes on.
- **Timer** (`TimerModel`, `SwTimer`) and **battery check** (`PowerCheck`).
- `Search` and `Arithmetic` hold the linear search of the lookup tables and facts about division.

## Results worth knowing

- The receiver is a decoder: outside a packet, what it posts for a stream is exactly what
  `Framing.Decode` reads in it, and this survives any interleaving on a board
  (`ReceiverModel.ReceiverDecodes`, `BoardRuns.BoardDecodes`).
- One complete frame resynchronises it from any state, at the price of at most one spurious packet
  (`ReceiverModel.SelfSynchronisation`).
- The payload limit is 125 bytes, one less than the 126 that the 128-byte packet array and the id
  suggest, because the check byte is stored too and a full buffer is rejected
  (`Framing.FrameRoundTripIff`).
- What a longer frame is read as is decided by its tail behind the 127th payload byte
  (`Damage.FrameReading`); an escaped BEGIN there can start a packet that nobody sent
  (`Damage.OverlongFrameCanMislead`), and `Damage.OverlongFrameIsDropped` says when none is read.
- Without a dispatch, a board posts exactly the first packets of a burst, as many as the queue has
  room for and the packet pool has buffers: 16 from power-up with the shipped pool of 20
  (`Burst.BurstPosts`, `Burst.FirstBurst`). The 17th is lost and takes a buffer with it
  (`Burst.SeventeenFrames`).
- The k-th callback of a periodic timer comes no earlier than k intervals after its registration,
  in every run (`TimerModel.RegisteredIsNeverEarly`), unless the 32-bit deadline wraps; then the
  first one comes at once (`TimerModel.EarlyIffWrapped`).
- A periodic timer that is late by an interval or more is called at once and again by the next
  update (`TimerModel.LateCatchesUp`); what it missed beyond that is dropped.
- A registered callback is called with exactly the messages of its id, in order, once each
  (`Calls.CallsAreMessages`), and sequences of messages cross from board to board unchanged and in
  order (`Relay.MessagesAreRelayed`).
- A frame that is cut short harms the next one exactly if it is cut in an escape of a packet that is
  still open (`Damage.CutFrameHarmsIff`).
- A packet buffer is lost exactly when a packet is completed while the queue is full and another
  buffer is free, over every run (`BoardRuns.RunLosesIff`).
- A callback that posts the element it is being shown succeeds if no one has locked it, but the
  element is free when the dispatcher's round ends, while the queue still holds it
  (`PumpRuns.RepostFromCallback`).
- Registering a callback again takes a second slot exactly when an earlier slot has been emptied by
  an unregistration (`PumpRuns.RegisterDuplicatesIff`, `PumpRuns.RegisterTwice`).
- `msgPump_unregisterFromMessage` returns FALSE in every case.

## Model

| member | source | states |
|---|---|---|
| Bytes.Sum8IsTotalMod256 | src/framework/flawless/protocol/genericFlawLessProtocol.c:200 | the running 8-bit checksum of any byte string is its plain sum modulo 256 |
| Framing.UnescapeEscape | src/framework/flawless/protocol/genericFlawLessProtocol.c:294-317 | unescaping undoes escaping for every byte string |
| Framing.EncoderWellFormed | src/framework/flawless/protocol/genericFlawLessProtocol.c:321-379 | the body between BEGIN and END sums to 0 and splits into plain bytes and escape pairs that spell id, payload and one check byte, also when the check byte is escaped and recomputed |
| Framing.DecodeBodyOfEncode | src/framework/flawless/protocol/genericFlawLessProtocol.c:238-256 | a frame body means its own message if the payload has at most 125 bytes, and no message otherwise |
| Framing.TokenSpanMeaning | src/framework/flawless/protocol/genericFlawLessProtocol.c:166-198 | the reference reading takes complete tokens only and stops early only at a delimiter, a cut-off escape or the end |
| Framing.DecodeFrame | src/framework/flawless/protocol/genericFlawLessProtocol.c:162-274 | in a stream, a complete body between BEGIN and END yields what the body means, and the rest is read independently |
| Framing.DecodeEncodeAll | src/framework/flawless/protocol/genericFlawLessProtocol.c:357-382 | any sequence of messages that fit is read back exactly from the concatenation of their frames |
| Framing.FrameRoundTripIff | src/framework/flawless/protocol/genericFlawLessProtocol.c:190-198 | a frame is read back as its message if and only if the payload has at most 125 bytes |
| Framing.FrameExamples | src/framework/flawless/protocol/genericFlawLessProtocol.c:321-379 | three frames byte by byte, one of them with a check byte that is computed again and escaped |
| Damage.OverlongFrameReadsAsItsTail | src/framework/flawless/protocol/genericFlawLessProtocol.c:190-198 | a frame with 127 or more payload bytes is read as its tail behind the 127th payload byte, whatever follows |
| Damage.TailReading | src/framework/flawless/protocol/genericFlawLessProtocol.c:164-198 | the rest of a frame, from any place between two tokens, is read outside a packet as at most one packet: the one behind the last BEGIN that the receiver accepts there, if what is in front of it sums to 0 and its length fits |
| Damage.FrameReading | src/framework/flawless/protocol/genericFlawLessProtocol.c:150-277 | a frame of any length is read as itself up to 125 payload bytes, as nothing with 126, and else as its tail behind the 128th token; what follows is read as ever |
| Damage.OverlongFrameIsDropped | src/framework/flawless/protocol/genericFlawLessProtocol.c:190-198 | a frame says nothing if and only if its payload has 126 bytes, or more and no packet in its tail is accepted, which the length and one partial sum decide |
| Damage.OverlongFrameCanMislead | src/framework/flawless/protocol/genericFlawLessProtocol.c:190-198 | one over-long frame, with an escaped BEGIN behind its 127th payload byte, is read as a packet that was not sent |
| Damage.DecodeTruncated | src/framework/flawless/protocol/genericFlawLessProtocol.c:164-182 | a frame of any length cut short between two tokens by the next BEGIN yields nothing and does not harm what the BEGIN starts |
| Damage.DecodeTruncatedInEscape | src/framework/flawless/protocol/genericFlawLessProtocol.c:164-198 | cut right behind an ESCAPE it swallows the next frame if its last packet is still open: that frame is not read as itself; otherwise the next frame is read as ever; and so is what follows both |
| Damage.CutFrameHarmsIff | src/framework/flawless/protocol/genericFlawLessProtocol.c:164-198 | a cut frame harms the next one if and only if it is cut in an escape of an open packet |
| Damage.HarmedFrame | src/framework/flawless/protocol/genericFlawLessProtocol.c:166-182 | for instance BEGIN, 7, ESCAPE in front of a frame yields nothing at all |
| Damage.StrayPiece | src/framework/flawless/protocol/genericFlawLessProtocol.c:405-420 | a piece sent outside a frame goes on the wire all the same, says nothing, and does not harm the next frame |
| Damage.StrayEnd | src/framework/flawless/protocol/genericFlawLessProtocol.c:422-437 | nor does an end outside a frame |
| SenderModel.StreamedEqualsOneShot | src/framework/flawless/protocol/genericFlawLessProtocol.c:357-437 | begin, any pieces, end puts the same bytes on the wire as one message of the concatenated payload and leaves an idle sender; whole messages tried in between send nothing |
| SenderModel.CallsAreCounted | src/framework/flawless/protocol/genericFlawLessProtocol.c:384-420 | between begin and end the sender counts the payload bytes in 16 bits and keeps the announced length |
| Sender.Sender.Send | src/framework/flawless/protocol/genericFlawLessProtocol.c:288-318 | emits the byte, escaped if asked and needed, and returns the checksum contribution of what was emitted |
| Sender.Sender.SendChecksum | src/framework/flawless/protocol/genericFlawLessProtocol.c:321-353 | emits the check bytes that cancel the sum |
| Sender.Sender.SendMessage | src/framework/flawless/protocol/genericFlawLessProtocol.c:357-382 | an idle sender appends exactly one encoded frame to the wire; a sending one or an unknown interface changes nothing |
| Sender.Sender.BeginTransmittingFrame | src/framework/flawless/protocol/genericFlawLessProtocol.c:384-403 | an idle sender emits BEGIN and the escaped id and starts the running checksum with them |
| Sender.Sender.SendInsideFrame | src/framework/flawless/protocol/genericFlawLessProtocol.c:405-420 | emits the escaped data, adds it to the running checksum, counts in 16 bits |
| Sender.Sender.EndTransmittingFrame | src/framework/flawless/protocol/genericFlawLessProtocol.c:422-437 | emits the check bytes of the running checksum and END, and returns to the idle state |
| ReceiverModel.RunConcat | src/framework/flawless/protocol/genericFlawLessProtocol.c:279-286 | a stream received in chunks has the effect of the stream received at once |
| ReceiverModel.RunKeepsValid | src/framework/flawless/protocol/genericFlawLessProtocol.c:190-256 | on every stream and for every answer of the pump, at most 128 bytes are counted, at most 127 in escape mode, and no posted payload exceeds 125 |
| ReceiverModel.DecoderSoundness | src/framework/flawless/protocol/genericFlawLessProtocol.c:166-271 | from any valid state, a packet is posted only on END, and the bytes since the BEGIN that the receiver last accepted, outside an escape, are a body of that packet: sum 0, unescaping to id, payload and check byte; without such a BEGIN the packet was open at the start |
| ReceiverModel.ReceiverDecodes | src/framework/flawless/protocol/genericFlawLessProtocol.c:150-277 | from any state outside a packet, the packets posted for a stream are exactly those the stream decoder reads |
| ReceiverModel.FrameRoundTrip | src/framework/flawless/protocol/genericFlawLessProtocol.c:150-277 | from any state not mid-escape, a frame posts exactly its own packet if and only if its payload has at most 125 bytes |
| ReceiverModel.FrameSynchronises | src/framework/flawless/protocol/genericFlawLessProtocol.c:162-274 | from any state, even mid-escape, one complete frame of any length leaves the receiver outside a packet, with at most one delivery |
| ReceiverModel.SelfSynchronisation | src/framework/flawless/protocol/genericFlawLessProtocol.c:162-274 | after any bytes from any state and one complete frame, whatever follows is delivered exactly as the stream decoder reads it |
| ReceiverModel.SynchronisedMessages | src/framework/flawless/protocol/genericFlawLessProtocol.c:162-274 | in particular every later message that fits is delivered exactly, in order, once |
| PumpModel.Table | src/framework/flawless/core/msg_msgPump.c:454-471 | the id table leads every id to a pool of that id, and knows every pool's id |
| PumpModel.ClassifyIff | src/framework/flawless/core/msg_msgPump.c:163-176 | for a pool in memory, post takes an address for element i if and only if i exists in the pool and the address is its payload start; the 32-bit offset and the 16-bit element size do not truncate |
| PumpModel.ElementsApart | src/framework/flawless/core/msg_msgPump.c:223-228 | payloads of distinct elements lie at least a header apart |
| PumpModel.ForeignPointerIsOutside | src/framework/flawless/core/msg_msgPump.c:163-219 | a pointer into another pool's payload is never taken for one of this pool's elements |
| PumpModel.FirstFree | src/framework/flawless/core/msg_msgPump.c:363-390 | the element found is free and the first such in its pool; none is found only if none is free |
| PumpInvariant.FullIff | src/framework/flawless/core/msg_msgPump.c:146-150 | the fullness test holds exactly when N messages are queued |
| PumpInvariant.StepKeepsInv | src/framework/flawless/core/msg_msgPump.c:141-439 | every disciplined step of anyone, including each single dispatcher step, keeps the invariant on headers, ring, ownership, bytes in flight and visits |
| PumpRuns.InitialInv | src/framework/flawless/core/msg_msgPump.c:449-477 | initialisation establishes the invariant |
| PumpRuns.RingIsQueue | src/framework/flawless/core/msg_msgPump.c:190-198 | message n lies in slot n modulo N, tail is front plus size modulo N, and the live entries are the messages posted and not yet done, oldest first |
| PumpRuns.DeliveredOnceInOrder | src/framework/flawless/core/msg_msgPump.c:403-433 | over every run the dispatcher looks at the receiver slots once per message each, in posting order, with the id and bytes of the post |
| PumpRuns.NoOverwriteInFlight | src/framework/flawless/core/msg_msgPump.c:218-259 | as long as a message is in flight its queue slot, element and bytes do not change, whatever interleaves |
| PumpRuns.LockKeepsBytes | src/framework/flawless/core/msg_msgPump.c:281-312 | as long as an element is locked its bytes do not change in any run, also after the pump has released it |
| PumpRuns.EveryMessageIsDispatched | src/framework/flawless/core/msg_msgPump.c:403-439 | a run with eight dispatcher steps per message, interleaved with anything, finishes every message up to number n |
| PumpRuns.OwnershipFromBits | src/framework/flawless/core/msg_msgPump.c:414-432 | each element is in exactly one of free, held, queued, dispatching, retained, and header bits plus queue place tell which |
| PumpRuns.ReferenceCount | src/framework/flawless/core/msg_msgPump.c:286-346 | the count is the outstanding locks plus one while held or with the pump; it never wraps, locks can always be returned, and an element is free exactly when nobody holds, queues or locks it |
| Clients.LockAdds | src/framework/flawless/core/msg_msgPump.c:286-312 | a lock on a live message adds one reference and one lock, unless there are 255; nothing else changes |
| Clients.UnlockReturns | src/framework/flawless/core/msg_msgPump.c:321-346 | a returned lock takes one away; the element is free if and only if it was the last one behind the pump's release |
| Clients.LocksBalance | src/framework/flawless/core/msg_msgPump.c:286-346 | over every run the count is the locks at the start plus those taken less those returned, plus the one of the client or the pump |
| PumpRuns.PoolConserved | src/framework/flawless/core/msg_msgPump.c:352-401 | in every run the five classes of a pool sum to its size, and acquiring fails exactly when the free class is empty or the id is the lowest one, which is never served |
| Clients.Acquires | src/framework/flawless/core/msg_msgPump.c:363-390 | acquiring, for every id, takes a free element of the id's pool, which is held with count 1 and in use from then on; nothing else changes and no acquisition yields it again |
| Clients.AcquiresNothing | src/framework/flawless/core/msg_msgPump.c:395-399 | if no element is free, nothing changes |
| Clients.HeldStaysHeld | src/framework/flawless/core/msg_msgPump.c:141-439 | what a client holds stays with it in every step but its own posts, and only its own fills change the bytes |
| Clients.NeverHandedOutTwice | src/framework/flawless/core/msg_msgPump.c:352-401 | over every run in which the client posts nothing, its element is handed out to no one, whatever else happens |
| Clients.FilledIsPosted | src/framework/flawless/core/msg_msgPump.c:178-199 | what a client writes into its element is what its post queues, whatever others do in between, unless the queue is full |
| PumpRuns.QueueHoldsItsElements | src/framework/flawless/core/msg_msgPump.c:425-432 | queue and dispatcher own as many distinct elements as there are queued messages, not counting a front entry already released but not popped |
| PumpRuns.HeldPostFailsOnlyWhenFull | src/framework/flawless/core/msg_msgPump.c:178-199 | posting an element one holds is refused if and only if the queue is full |
| PumpRuns.CopyPostFailsOnlyWhenExhausted | src/framework/flawless/core/msg_msgPump.c:218-259 | posting from elsewhere changes nothing if the queue is full or the pool exhausted, and otherwise queues a copy of the bytes |
| PumpRuns.RepostForcesFree | src/framework/flawless/core/msg_msgPump.c:200-210 | posting an element that still waits in the queue is refused; on a full queue nothing changes, otherwise it is marked free and the invariant is broken |
| PumpRuns.RepostFromCallback | src/framework/flawless/core/msg_msgPump.c:178-199 | posting the element being shown succeeds if it has no locks and the queue is not full; at the end of the dispatcher's round it is free although the queue holds it |
| PumpRuns.ElementPost | src/framework/flawless/core/msg_msgPump.c:146-212 | a pointer to an element, in every case: nothing on a full queue, queued if held or being shown without locks, forced free otherwise |
| PumpRuns.ElementPostKeepsInvIff | src/framework/flawless/core/msg_msgPump.c:146-212 | posting an element keeps the invariant if and only if the queue is full, or the element is held or free |
| PumpRuns.KeepsInvIff | src/framework/flawless/core/msg_msgPump.c:141-439 | any step of anyone keeps the invariant if and only if it is no fill of changed bytes in flight, no post of an element in flight or retained on a queue with room, no lock of a free or held element, and no unlock without a lock |
| PumpRuns.DisciplinedIsHarmless | src/framework/flawless/core/msg_msgPump.c:141-439 | every disciplined step is one of those |
| PumpRuns.RegisterDuplicatesIff | src/framework/flawless/core/msg_msgPump.c:82-90 | registering creates a duplicate if and only if an empty slot precedes the callback's own |
| PumpRuns.RegisterTwice | src/framework/flawless/core/msg_msgPump.c:82-90 | registering a, registering b, removing a, registering b gives b two slots |
| PumpRuns.RegisterKeepsPacked | src/framework/flawless/core/msg_msgPump.c:82-90 | registrations alone keep every callback in one slot and lose none |
| PumpRuns.UnregisterRemoves | src/framework/flawless/core/msg_msgPump.c:119-127 | among slots without duplicates, removing a callback empties its slot and no other |
| Calls.RegisterStands | src/framework/flawless/core/msg_msgPump.c:67-96 | a registration touches the slots of its own id only; the callback stands there afterwards if and only if it did or a slot was empty, and no other is lost |
| Calls.UnregisterClears | src/framework/flawless/core/msg_msgPump.c:103-133 | a removal touches the slots of its own id only and removes the callback and no other |
| Calls.LookCalls | src/framework/flawless/core/msg_msgPump.c:415-424 | a look at a slot finds the callback that stands in that slot of the message's own id at that moment, and shows it the message as posted |
| Calls.CallsAreMessages | src/framework/flawless/core/msg_msgPump.c:403-433 | over every run without registrations for an id, a callback in one slot of the id is called with exactly the messages of the id that its slot comes to see, in posting order, once each |
| Calls.EmptyQueueShowsAll | src/framework/flawless/core/msg_msgPump.c:403-433 | between two moments with an empty queue those are all messages of the id |
| Calls.AbsentIsNotCalled | src/framework/flawless/core/msg_msgPump.c:415-424 | a callback in no slot of an id is not called for it |
| Calls.RegisteredIsCalled | src/framework/flawless/core/msg_msgPump.c:67-96 | a callback that registers and finds a slot is called so from the registration on |
| Calls.SlotsAtStart | src/framework/flawless/core/msg_msgPump.c:449-477 | initially no callback is registered |
| Pump.MsgPump.constructor | src/framework/flawless/core/msg_msgPump.c:449-477 | the pump starts in the initial state of the model |
| Pump.MsgPump.InitPools | src/framework/flawless/core/msg_msgPump.c:454-471 | the loop over the pools builds the id table and clears every pool |
| Pump.MsgPump.PostMessage | src/framework/flawless/core/msg_msgPump.c:141-279 | performs the model's post step in place and reports its success |
| Pump.MsgPump.LockMessage | src/framework/flawless/core/msg_msgPump.c:286-312 | performs the model's lock step in place and reports its success |
| Pump.MsgPump.UnlockMessage | src/framework/flawless/core/msg_msgPump.c:321-346 | performs the model's unlock step in place and reports its success |
| Pump.MsgPump.FindFree | src/framework/flawless/core/msg_msgPump.c:223-233 | the search loop finds the first free element of a pool |
| Pump.MsgPump.GetFreeBuffer | src/framework/flawless/core/msg_msgPump.c:352-401 | hands out the first free element, locked and marked in use, or nothing |
| Pump.MsgPump.RegisterOnMessage | src/framework/flawless/core/msg_msgPump.c:67-96 | performs the model's registration and succeeds exactly if a slot is empty or already the callback's |
| Pump.MsgPump.UnregisterFromMessage | src/framework/flawless/core/msg_msgPump.c:103-133 | empties the first slot of the callback and reports failure in every case |
| Pump.MsgPump.StartFront | src/framework/flawless/core/msg_msgPump.c:407-414 | marks the front element in use |
| Pump.MsgPump.CallSlot | src/framework/flawless/core/msg_msgPump.c:415-424 | shows the front message to the next receiver slot |
| Pump.MsgPump.FinishFront | src/framework/flawless/core/msg_msgPump.c:425 | clears the front element's flag |
| Pump.MsgPump.ReleaseFront | src/framework/flawless/core/msg_msgPump.c:427 | returns the pump's own lock |
| Pump.MsgPump.PopFront | src/framework/flawless/core/msg_msgPump.c:428-432 | advances the ring |
| Pump.MsgPump.PumpMessage | src/framework/flawless/core/msg_msgPump.c:403-439 | one undisturbed round of the loop is the eight dispatcher steps in order |
| BoardModel.ReceiverOwnsItsBuffer | src/framework/flawless/protocol/genericFlawLessProtocol.c:122-160 | the receiver's buffer is a packet pool element with count 1, in use and not queued; without one the mode is unknown |
| BoardModel.PostBufferIs | src/framework/flawless/protocol/genericFlawLessProtocol.c:243-256 | the receiver's post fails if and only if the queue is full, and otherwise queues the buffer's bytes |
| BoardModel.FinalBytesMean | src/framework/flawless/protocol/genericFlawLessProtocol.c:243-249 | the posted buffer's bytes read as the packet with the received id, length and payload |
| BoardModel.ReceiveRefines | src/framework/flawless/protocol/genericFlawLessProtocol.c:150-277 | one byte handled in pool memory is one step of the receiver machine for the answers the pump gives, keeps ownership, and queues exactly what the step posts |
| Receiver.Receiver.Reset | src/framework/flawless/protocol/genericFlawLessProtocol.c:122-148 | performs the model's buffer reset and reports whether an element was free |
| Receiver.Receiver.constructor | src/framework/flawless/protocol/genericFlawLessProtocol.c:441-454 | start-up asks the pump for the first buffer |
| Receiver.Receiver.ReceiveByte | src/framework/flawless/protocol/genericFlawLessProtocol.c:150-277 | performs the model's byte step in place |
| Receiver.Receiver.ReceiveIndication | src/framework/flawless/protocol/genericFlawLessProtocol.c:279-286 | performs the byte steps of a chunk in order |
| BoardRuns.HeldIsStable | src/framework/flawless/core/msg_msgPump.c:141-439 | no step of others takes or changes an element that the receiver holds |
| BoardRuns.BoardRefines | src/framework/flawless/protocol/genericFlawLessProtocol.c:150-286 | over every interleaved run the receiver is the receiver machine run on its bytes alone, and the packets among the posts are exactly that machine's |
| BoardRuns.BoardDecodes | src/framework/flawless/protocol/genericFlawLessProtocol.c:150-286 | if the pump grants every buffer and every place in the queue that is needed, an interleaved run posts exactly the packets that the stream decoder reads in the received bytes |
| BoardRuns.BoardSynchronises | src/framework/flawless/protocol/genericFlawLessProtocol.c:150-286 | from any state of the board one complete frame resynchronises it, at the price of at most one spurious packet |
| BoardRuns.BufferLostIff | src/framework/flawless/protocol/genericFlawLessProtocol.c:248-256 | a byte makes the receiver lose a buffer if and only if it completes a packet while the queue is full and another buffer is free; what is lost stays lost |
| BoardRuns.RunLosesIff | src/framework/flawless/protocol/genericFlawLessProtocol.c:122-256 | over every interleaved run a buffer is lost if and only if some byte of the run is such a byte |
| BoardRuns.PassesThrough | src/framework/flawless/core/msg_msgPump.c:403-439 | every interleaved run passes through each stage of the dispatcher's work between its first and its last |
| BoardCalls.BoardCallsAreMessages | src/framework/flawless/core/msg_msgPump.c:403-433 | the same calls over every interleaved run of a board, received bytes included |
| BoardCalls.BoardLooksFind | src/framework/flawless/core/msg_msgPump.c:415-424 | in such a run every look for an id finds the callback that stood in that slot at the start, if no one registers for the id |
| Burst.ByteCost | src/framework/flawless/protocol/genericFlawLessProtocol.c:122-256 | a byte that completes a packet costs one packet buffer unless none is left, and one place in the queue unless it is full; any other byte costs nothing |
| Burst.BurstPosts | src/framework/flawless/protocol/genericFlawLessProtocol.c:150-277 | from any valid state, of the packets of a burst exactly the first ones are posted, as many as there are buffers in reserve and room in the queue |
| Burst.BurstLosesIff | src/framework/flawless/protocol/genericFlawLessProtocol.c:248-256 | a burst loses a buffer if and only if it has more packets than the queue has room for and the reserve exceeds that room by more than 1 |
| Burst.BurstFits | src/framework/flawless/protocol/genericFlawLessProtocol.c:243-256 | a burst of n packets on a board with n + 1 buffers in reserve and room for n messages is posted whole, uses up exactly n of both, and leaves the receiver where the stream alone leads it |
| Burst.BurstIsDecoded | src/framework/flawless/protocol/genericFlawLessProtocol.c:150-277 | outside a packet, a burst is posted as the stream decoder reads it up to the board's capacity, so whole if and only if neither the buffers nor the room are fewer than its packets |
| Burst.FirstBurst | src/framework/flawless/protocol/genericFlawLessProtocol.c:97-277 | a board that has just started posts its whole first burst if and only if it has no more packets than the queue has places (16) and the packet pool buffers; it loses a buffer if and only if it has more than 16 and the pool at least 18 buffers |
| Burst.SeventeenFrames | src/framework/flawless/protocol/genericFlawLessProtocol.c:248-256 | for instance of any 17 messages in a row 16 are posted, nothing being lost before the last, and the last one loses a buffer |
| Burst.ChunkIsBurst | src/framework/flawless/protocol/genericFlawLessProtocol.c:279-286 | a chunk that an interface hands over is such a burst |
| BoardRuns.PowerUp | src/framework/flawless/protocol/genericFlawLessProtocol.c:441-454 | after initialisation the board satisfies all of these invariants and the receiver holds the pool's first element |
| ProxyModel.OutgoingIsOneFrame | src/framework/flawless/protocol/msgProxy.c:29-71 | a message with a wire id and a pool becomes one frame for endpoint 4 with the wire id in front; any other is not sent |
| ProxyModel.OutgoingInsideFrame | src/framework/flawless/protocol/msgProxy.c:59-65 | while another frame is open the message ends up inside it and closes it |
| ProxyModel.OutgoingExample | src/framework/flawless/protocol/msgProxy.c:51-66 | the bytes on the wire of one message, wire id low byte first |
| ProxyModel.PacketIsRouted | src/framework/flawless/protocol/genericFlawLessProtocolPacketDispatcher.c:29-46 | every packet that the receiver posts calls the first endpoint with its id, if there is one, with its payload and an interface that the board has; no other message calls an endpoint |
| ProxyModel.NothingGoesBack | src/framework/flawless/protocol/msgProxy.c:119-127 | a packet that came in on an interface of the board is not sent back on it |
| ProxyModel.ElsewhereIsPassedOn | src/framework/flawless/protocol/msgProxy.c:119-127 | one from elsewhere is passed on as one frame |
| ProxyModel.IncomingOfOutgoing | src/framework/flawless/protocol/msgProxy.c:75-117 | the packet that carries a message is posted as that message if and only if the board declares its id with the same size |
| ProxyModel.SharedTableIff | src/framework/include/flawless/config/msgProxyConfig.h:21-31 | across a shared table a message keeps its id if and only if no earlier entry has its wire id |
| ProxyModel.ShippedTable | src/framework/include/flawless/config/msgProxyConfig.h:27-31 | the shipped table has that property for every id in it |
| Proxy.OnReceivedPacket | src/framework/flawless/protocol/genericFlawLessProtocolPacketDispatcher.c:22-51 | calls the first endpoint with the packet's id, with its bytes, length and interface, and none for other messages |
| Proxy.IncomingIsCallable | src/framework/flawless/protocol/msgProxy.c:81-113 | a size that wrapped around never matches a pool, so every post the endpoint makes has enough bytes behind it |
| Proxy.Proxy.MsgCallback | src/framework/flawless/protocol/msgProxy.c:29-71 | the search loops and send calls have the effect of the model's outgoing step |
| Proxy.Proxy.Accept | src/framework/flawless/protocol/msgProxy.c:83-117 | the search loops find what the model's incoming step posts |
| Proxy.Proxy.IncomingEndpoint | src/framework/flawless/protocol/msgProxy.c:75-128 | posts what the packet carries, and forwards it to every interface but its own |
| EndToEnd.HopToPacket | src/framework/flawless/protocol/msgProxy.c:29-71 | a message of at most 123 bytes sent by one board becomes, on another board amid any interleaving, one posted packet that carries its wire id and bytes |
| EndToEnd.PacketToRequest | src/framework/flawless/protocol/genericFlawLessProtocolPacketDispatcher.c:22-51 | the dispatcher hands that packet to the first endpoint with id 4, which asks for a post of the same bytes under the board's own id |
| EndToEnd.HopFromPacket | src/framework/flawless/protocol/msgProxy.c:75-117 | whenever the dispatcher shows that packet, after any further run, the chain posts the message straight from the memory of the buffer it was received in, with its original bytes, unless queue or pool is exhausted |
| EndToEnd.ShownMemory | src/framework/flawless/core/msg_msgPump.c:411-424 | while a packet is being shown its element is a packet buffer in the dispatcher's hands and its memory is what was posted |
| EndToEnd.Hop | src/framework/flawless/protocol/msgProxy.c:29-117 | a message of at most 123 bytes under an id whose wire id is not taken by an earlier entry becomes one packet on the other board; whenever that is shown to the slot in which the packet dispatcher stands, its callback is called with it, and the same id and bytes can be posted there, if the board declares the id with that size |
| EndToEnd.HopCompletes | src/framework/flawless/protocol/msgProxy.c:29-117 | if that board has emptied its queue by the end of the run, there was a moment in it at which the packet dispatcher was called with the packet and the message could be posted so |
| Relay.PostIsRequest | src/framework/flawless/protocol/msgProxy.c:75-111 | when the proxy endpoint makes its post, whatever has come in between, the buffer still holds what the callback was called with |
| Relay.RelayMakes | src/framework/flawless/protocol/genericFlawLessProtocolPacketDispatcher.c:22-51 | over every run the posts of the proxy are exactly what the calls of the packet dispatcher have called for, in order, up to one still to be made |
| Relay.PostsLand | src/framework/flawless/protocol/msgProxy.c:105-113 | posts that are not refused enter the queue in order, with the bytes of the request up to the pool's size |
| Relay.SentAsFrames | src/framework/flawless/protocol/msgProxy.c:29-71 | a sequence of messages goes out as the sequence of their frames |
| Relay.PacketsAreShown | src/framework/flawless/protocol/genericFlawLessProtocolPacketDispatcher.c:22-51 | from an empty queue to an empty queue, the packet dispatcher is called with exactly the packets in the received bytes |
| Relay.PacketsReachEndpoints | src/framework/flawless/protocol/genericFlawLessProtocolPacketDispatcher.c:29-46 | the endpoint calls of such a run are the packets in the received bytes, each at its own endpoint, in order; packets without one call none |
| Relay.NothingIsEchoed | src/framework/flawless/protocol/msgProxy.c:119-127 | relaying such a run puts no byte on the board's own wire |
| Relay.MessagesAreRelayed | src/framework/flawless/protocol/msgProxy.c:29-117 | any sequence of messages that one board's proxy sends is posted on the other board in the same order, under the same ids and with the same bytes, amid any interleaving, if nothing runs out |
| TimerModel.EnteredKeepsTable | src/framework/flawless/timer/swTimer.c:44-70 | a registration keeps slots unique and succeeds exactly if the callback has a slot or one is empty |
| TimerModel.RunKeepsTable | src/framework/flawless/timer/swTimer.c:33-191 | over every sequence of registrations, removals and updates no callback has two slots and no live counter is negative |
| TimerModel.NextIntervalIsMinimum | src/framework/flawless/timer/swTimer.c:100-103 | the next interval is the least of 0x7fffffff and all live counters, and fits 31 bits if no live counter is negative |
| TimerModel.UpdateArmsIff | src/framework/flawless/timer/swTimer.c:184-189 | the hardware timer is set up if and only if some live counter is below 0x7fffffff, and then for exactly the earliest deadline or the minimum, whichever is later |
| TimerModel.FiresOncePerUpdate | src/framework/flawless/timer/swTimer.c:154-180 | an update makes a callback once if its counter is not above the ticks passed, and otherwise not at all |
| TimerModel.CalledIffDue | src/framework/flawless/timer/swTimer.c:154-180 | so does every trigger and every registration of another |
| TimerModel.FiredInSlotOrder | src/framework/flawless/timer/swTimer.c:154-180 | the callbacks are made in slot order |
| TimerModel.NextDeadline | src/framework/flawless/timer/swTimer.c:163-169 | the next deadline of a called periodic timer is one interval behind the last one, or at once if that has passed |
| TimerModel.LateCatchesUp | src/framework/flawless/timer/swTimer.c:163-169 | a periodic timer found a whole interval late is called at once and again by the very next update |
| TimerModel.TriggerSetsUp | src/framework/flawless/timer/swTimer.c:184-189 | a trigger sets up the hardware timer for exactly the earliest deadline, but at least 40 ticks |
| TimerModel.RegisterSetsUp | src/framework/flawless/timer/swTimer.c:108-115 | a registration does so for at least 4 ticks |
| TimerModel.NestedCallsWait | src/framework/flawless/timer/swTimer.c:74-107 | while callbacks are being made a trigger changes nothing and a registration only takes its slot |
| TimerModel.NeverEarly | src/framework/flawless/timer/swTimer.c:78-105 | over every run the k-th firing of a periodic timer comes only after c0 + (k-1) I ticks, and its counter stays within 0 and max(c0, I) and on schedule or ahead of it |
| TimerModel.RegisteredIsNeverEarly | src/framework/flawless/timer/swTimer.c:33-121 | over every run from the registration on, the k-th callback of a periodic timer comes no earlier than k intervals after the clock was read |
| TimerModel.RegisteredIsCalledInTime | src/framework/flawless/timer/swTimer.c:33-121 | over every run from the registration on, the first callback of any timer has been made if and only if its time has passed since the clock was read |
| TimerModel.RegisteredFiresOnce | src/framework/flawless/timer/swTimer.c:33-121 | a timer registered as one-shot is called exactly once in a run in which its time passes, else not, and keeps its slot exactly until then |
| TimerModel.EarlyIffWrapped | src/framework/flawless/timer/swTimer.c:63-70 | with the clock before the deadline, a registration makes its own first callback at once, early, if and only if the 32-bit sum of ticks and clock wraps |
| TimerModel.NoDrift | src/framework/flawless/timer/swTimer.c:89-93 | if no update passes more than one interval, the counter is exactly c0 + k I minus the ticks passed |
| TimerModel.OneShotFiresOnce | src/framework/flawless/timer/swTimer.c:89-98 | a one-shot timer fires at most once in any run, not early, and has then left the table |
| TimerModel.RemovedIsGone | src/framework/flawless/timer/swTimer.c:128-139 | a removed callback has no slot any more, and all others keep theirs unchanged |
| TimerModel.RemovedIsNotCalled | src/framework/flawless/timer/swTimer.c:123-142 | after a removal the callback is not called in any run that does not register it again |
| SwTimer.SwTimer.UpdateClients | src/framework/flawless/timer/swTimer.c:74-107 | the loop lets the time pass in every slot, makes the due callbacks in slot order, and returns the next interval |
| SwTimer.SwTimer.Trigger | src/framework/flawless/timer/swTimer.c:144-191 | performs the model's trigger in place |
| SwTimer.SwTimer.FindSlot | src/framework/flawless/timer/swTimer.c:45-61 | the one-pass loop finds the callback's own slot, or else the first empty one |
| SwTimer.SwTimer.RegisterOnTimerUS | src/framework/flawless/timer/swTimer.c:33-121 | performs the model's registration in place and succeeds exactly if there is a slot |
| SwTimer.SwTimer.UnRegisterFromTimer | src/framework/flawless/timer/swTimer.c:123-142 | empties the callback's slot and succeeds exactly if it had one |
| PowerCheck.LevelIsExact | src/application/powerCheck.c:60-69 | for 16-bit thresholds nothing overflows or divides by zero, and the level is the exact share of 255, rounded down |
| PowerCheck.LevelIsMonotone | src/application/powerCheck.c:60-69 | the level never falls as the voltage rises |
| PowerCheck.ColoursFollowVoltage | src/application/powerCheck.c:71-82 | red or green is always full, and as the voltage rises green never falls and red never rises |
| PowerCheck.ColoursAreMixed | src/application/powerCheck.c:71-82 | one colour is full, red up to level 127 and green above, and both together rise by 2 per level to the middle and fall again |
| PowerCheck.ColoursDoNotJump | src/application/powerCheck.c:71-82 | from one level to the next neither colour moves by more than 2 |
| PowerCheck.FullFromHigh | src/application/powerCheck.c:64-69 | from the high threshold on the level is full |
| PowerCheck.PowerCheck.OnNewPwrMeasurement | src/application/powerCheck.c:49-88 | switches off at or below the low threshold and posts nothing; otherwise shows the level and its colours and posts the level |
| PowerCheck.PowerCheck.SetLowerVoltage | src/application/powerCheck.c:90-100 | a packet of two bytes sets the low threshold, low byte first, and any other changes nothing |
| PowerCheck.PowerCheck.SetUpperVoltage | src/application/powerCheck.c:102-112 | the same for the high threshold |

## Left out

- Hardware: GPIO, UART and DMA buffers, flash configuration, the hardware timer and linker sections. Pool, endpoint and id tables are sequences; elapsed ticks are inputs.
- The mutex itself: a region under the mutex is one step, and so is one received byte.
- Struct alignment and padding, and the header's size in bytes, which stays a parameter.
- Pools that do not lie in memory: a pool is shorter than 2 GiB and inside the 32-bit address space, and an element with its header is smaller than 64 KiB (`PumpModel.InMemory`).
- NULL messages: the post accepts them and the dispatcher then writes in front of the NULL pointer.
- Posting an id that no pool declares: the program follows a NULL descriptor; the model requires a declared id.
- Whole runs of pump clients without the discipline above; `PumpRuns.KeepsInvIff` covers their single steps.
- Callbacks as programs: what they do to the pump is other steps in between; that the timer's callbacks leave its table alone is assumed.
- NeverEarly: counts the ticks that updates report. When no live counter is below 0x7fffffff the hardware timer is not set up again, so the hardware may report the same ticks twice; that is not part of this model.
- RegisteredIsNeverEarly: for deadlines that fit 32 bits; for the others it fails, as `TimerModel.EarlyIffWrapped` says.
- RegisteredIsCalledInTime: the same.
- RegisteredFiresOnce: the same.
- DeliveredOnceInOrder: is about slots; which callback stands in one when it is looked at is the subject of `Calls`.
- HopFromPacket: says what a post at that moment does; in `Relay` the post is a step of the run.
- `Relay` has the callback of one packet make at most the proxy's post; what other endpoints do is steps of others.
- `swTimer_registerOnTimer` in milliseconds, which multiplies and calls the microsecond form.
- The length argument of the begin call, which is stored but never sent.
- More than one physical interface: the configuration has one.
- Interface statistics, which the configuration compiles out.
- OnNewPwrMeasurement: posts the level byte; the message buffer is wider than the variable, and what its other bytes hold is not modelled.
- The endpoints that report the battery limits or switch the board off.
- RPC, logging, the generic ring buffer header, and system initialisation order.
