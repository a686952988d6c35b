/** The proxy on the receiving board as part of the board's run: the packet dispatcher's callback
    calls the proxy endpoint, and the endpoint posts what the packet carries before the dispatcher
    goes on, with anything else in between. Whole sequences of messages are carried over. */
module Relay {
  import opened Bytes
  import opened Options
  import opened Search
  import opened Framing
  import opened PumpModel
  import opened PumpInvariant
  import PumpRuns
  import ReceiverModel
  import SenderModel
  import opened BoardModel
  import opened BoardRuns
  import opened Calls
  import opened BoardCalls
  import opened ProxyModel
  import opened EndToEnd
  import Proxy

  /** The proxy as a client of the pump. */
  const PROXY: nat := 1

  /** A board's configuration, and the callback under which its packet dispatcher is registered. */
  datatype Node = Node(cfg: Config, ids: seq<IdPair>, endpoints: seq<byte>, handler: Callback)

  /** What the dispatcher's callback, called with these bytes, comes to post through the proxy. */
  function RequestFor(nd: Node, bytes: seq<byte>): Option<PostRequest> {
    if |bytes| != PACKET_SIZE then None
    else
      match Dispatched(nd.endpoints, PACKET_READY, bytes)
      case None => None
      case Some(call) =>
        if nd.endpoints[call.endpoint] == PROXY_ENDPOINT then Incoming(nd.cfg.pools, nd.ids, call.packet, call.len)
        else None
  }

  function Opt(r: Option<PostRequest>): seq<PostRequest> {
    if r.Some? then [r.value] else []
  }

  function Requests(nd: Node, shown: seq<seq<byte>>): seq<PostRequest> {
    if |shown| == 0 then [] else Opt(RequestFor(nd, shown[0])) + Requests(nd, shown[1..])
  }

  lemma {:induction false} RequestsConcat(nd: Node, a: seq<seq<byte>>, b: seq<seq<byte>>)
    ensures Requests(nd, a + b) == Requests(nd, a) + Requests(nd, b)
  {
    if |a| == 0 {
      assert a + b == b;
    } else {
      RequestsConcat(nd, a[1..], b);
      DropConcat(a, b, 1);
    }
  }

  // ---- Runs of the board with its proxy ----

  predicate ByProxy(be: BoardEvent) {
    be.Other? && be.ev.PostMessage? && be.ev.who == PROXY
  }

  /** The callback that the dispatcher has called has `todo` left to post. */
  predicate Waiting(nd: Node, s: Sys, todo: Option<PostRequest>) {
    todo.Some? ==>
      && s.p.pc.Calling? && s.done < |s.posted|
      && s.posted[s.done].id == PACKET_READY && RequestFor(nd, s.posted[s.done].bytes) == todo
  }

  /** The dispatcher goes on only when its callback has returned, and the proxy posts only what its
      callback has come to post: from inside the packet buffer, what lies there at that moment. */
  ghost predicate Obeys(nd: Node, bd: Board, be: BoardEvent, todo: Option<PostRequest>)
    requires BoardInv(nd.cfg, bd) && Waiting(nd, bd.sys, todo)
  {
    && (be == Other(Dispatch) ==> todo.None?)
    && (ByProxy(be) ==>
          && todo.Some? && be.ev.id == todo.value.id
          && var e := bd.sys.posted[bd.sys.done].element;
             && InPacketPool(nd.cfg, e) && e < |bd.sys.p.data| && |bd.sys.p.data[e]| == PACKET_SIZE
             && be.ev.addr == BufferAddr(nd.cfg, e) + AT_PACKET + 2
             && be.ev.bytes == bd.sys.p.data[e][AT_PACKET + 2..])
  }

  function TodoAfter(nd: Node, s: Sys, t: Sys, be: BoardEvent, todo: Option<PostRequest>): Option<PostRequest> {
    if ByProxy(be) then None
    else if be == Other(Dispatch) then
      if |t.visits| <= |s.visits| then None
      else
        var v := t.visits[|t.visits| - 1];
        if v.callback == nd.handler && v.id == PACKET_READY then RequestFor(nd, v.bytes) else None
    else todo
  }

  lemma OtherStepIsQuiet(cfg: Config, bd: Board, be: BoardEvent)
    requires BoardInv(cfg, bd) && Allowed(cfg, bd, be) && be != Other(Dispatch)
    ensures var t := BoardStep(cfg, bd, be).sys;
            bd.sys.posted <= t.posted && t.visits == bd.sys.visits && t.done == bd.sys.done && t.p.pc == bd.sys.p.pc
  {
    match be
    case Other(ev) => PumpRuns.OthersAreQuiet(cfg, bd.sys, ev);
    case Byte(b) => BoardStepGrows(cfg, bd, be);
  }

  /** The dispatcher's step keeps what is posted, and if it looks at a slot it goes on to the next. */
  lemma DispatchShows(cfg: Config, s: Sys)
    requires Inv(cfg, s)
    ensures var t := DispatchStep(cfg, s);
            && t.posted == s.posted
            && (|t.visits| > |s.visits| ==>
                  && t.p.pc.Calling? && t.done == s.done < |s.posted|
                  && var v, m := t.visits[|t.visits| - 1], s.posted[s.done];
                     t.visits == s.visits + [v] && v.id == m.id && v.bytes == m.bytes)
            && (|t.visits| <= |s.visits| ==> t.visits == s.visits)
  {
    DispatchLooks(cfg, s);
  }

  lemma RelayStep(nd: Node, bd: Board, be: BoardEvent, todo: Option<PostRequest>)
    requires BoardInv(nd.cfg, bd) && Waiting(nd, bd.sys, todo) && Allowed(nd.cfg, bd, be) && Obeys(nd, bd, be, todo)
    ensures var next := BoardStep(nd.cfg, bd, be);
            BoardInv(nd.cfg, next) && Waiting(nd, next.sys, TodoAfter(nd, bd.sys, next.sys, be, todo))
  {
    BoardStepKeepsInv(nd.cfg, bd, be);
    if be == Other(Dispatch) {
      DispatchShows(nd.cfg, bd.sys);
    } else {
      OtherStepIsQuiet(nd.cfg, bd, be);
    }
  }

  /** A run of a board with its proxy. */
  ghost predicate RelayRun(nd: Node, bd: Board, evs: seq<BoardEvent>, todo: Option<PostRequest>)
    requires BoardInv(nd.cfg, bd) && BoardRun(nd.cfg, bd, evs) && Waiting(nd, bd.sys, todo)
    decreases |evs|
  {
    |evs| == 0 ||
    (Obeys(nd, bd, evs[0], todo) &&
     (RelayStep(nd, bd, evs[0], todo);
      var next := BoardStep(nd.cfg, bd, evs[0]);
      RelayRun(nd, next, evs[1..], TodoAfter(nd, bd.sys, next.sys, evs[0], todo))))
  }

  /** What is left to post at the end. */
  ghost function TodoEnd(nd: Node, bd: Board, evs: seq<BoardEvent>, todo: Option<PostRequest>): (r: Option<PostRequest>)
    requires BoardInv(nd.cfg, bd) && BoardRun(nd.cfg, bd, evs) && Waiting(nd, bd.sys, todo)
    requires RelayRun(nd, bd, evs, todo)
    ensures Waiting(nd, BoardAfter(nd.cfg, bd, evs).sys, r)
    decreases |evs|
  {
    if |evs| == 0 then todo
    else
      RelayStep(nd, bd, evs[0], todo);
      var next := BoardStep(nd.cfg, bd, evs[0]);
      TodoEnd(nd, next, evs[1..], TodoAfter(nd, bd.sys, next.sys, evs[0], todo))
  }

  /** The posts that the proxy makes. */
  function MadeBy(be: BoardEvent): seq<PostRequest> {
    if ByProxy(be) then [PostRequest(be.ev.id, be.ev.bytes)] else []
  }

  function Made(evs: seq<BoardEvent>): seq<PostRequest> {
    if |evs| == 0 then [] else MadeBy(evs[0]) + Made(evs[1..])
  }

  // ---- What is called for is posted ----

  /** At the moment of the proxy's post the buffer still holds what the callback was called with. */
  lemma PostIsRequest(nd: Node, bd: Board, be: BoardEvent, todo: Option<PostRequest>)
    requires BoardInv(nd.cfg, bd) && Waiting(nd, bd.sys, todo) && Obeys(nd, bd, be, todo) && ByProxy(be)
    ensures MadeBy(be) == Opt(todo)
  {
    var s := bd.sys;
    assert InFlight(s, s.done) && FlightOk(s, s.done);
    var bytes := s.posted[s.done].bytes;
    assert bytes[AT_PACKET..][2..] == bytes[AT_PACKET + 2..];
  }

  lemma StepMakes(nd: Node, bd: Board, be: BoardEvent, todo: Option<PostRequest>)
    requires BoardInv(nd.cfg, bd) && Waiting(nd, bd.sys, todo) && Allowed(nd.cfg, bd, be) && Obeys(nd, bd, be, todo)
    ensures var s, t := bd.sys, BoardStep(nd.cfg, bd, be).sys;
            && s.visits <= t.visits
            && MadeBy(be) + Opt(TodoAfter(nd, s, t, be, todo)) ==
               Opt(todo) + Requests(nd, CallsOf(t.visits[|s.visits|..], nd.handler, PACKET_READY))
  {
    var s, t := bd.sys, BoardStep(nd.cfg, bd, be).sys;
    if be == Other(Dispatch) {
      DispatchShows(nd.cfg, s);
      if |t.visits| > |s.visits| {
        OneCall(nd, s.visits, t.visits[|s.visits|]);
      }
    } else {
      OtherStepIsQuiet(nd.cfg, bd, be);
      if ByProxy(be) {
        PostIsRequest(nd, bd, be, todo);
      }
    }
  }

  lemma OneCall(nd: Node, visits: seq<Visit>, v: Visit)
    ensures Requests(nd, CallsOf((visits + [v])[|visits|..], nd.handler, PACKET_READY)) ==
            Opt(if v.callback == nd.handler && v.id == PACKET_READY then RequestFor(nd, v.bytes) else None)
  {
    assert (visits + [v])[|visits|..] == [v] && [v][1..] == [];
    assert [v.bytes][1..] == [];
  }

  /** Over every run the proxy's posts are exactly what the calls of the dispatcher's callback have
      called for, in order, up to one that it is still about to make. */
  lemma {:induction false} RelayMakes(nd: Node, bd: Board, evs: seq<BoardEvent>, todo: Option<PostRequest>)
    requires BoardInv(nd.cfg, bd) && BoardRun(nd.cfg, bd, evs) && Waiting(nd, bd.sys, todo)
    requires RelayRun(nd, bd, evs, todo)
    ensures var s, t := bd.sys, BoardAfter(nd.cfg, bd, evs).sys;
            && s.visits <= t.visits
            && Made(evs) + Opt(TodoEnd(nd, bd, evs, todo)) ==
               Opt(todo) + Requests(nd, CallsOf(t.visits[|s.visits|..], nd.handler, PACKET_READY))
    decreases |evs|
  {
    if |evs| > 0 {
      RelayStep(nd, bd, evs[0], todo);
      var next := BoardStep(nd.cfg, bd, evs[0]);
      var left := TodoAfter(nd, bd.sys, next.sys, evs[0], todo);
      StepMakes(nd, bd, evs[0], todo);
      RelayMakes(nd, next, evs[1..], left);
      MakesAndThen(nd, bd.sys.visits, next.sys.visits, BoardAfter(nd.cfg, bd, evs).sys.visits,
                   MadeBy(evs[0]), Made(evs[1..]), Opt(todo), Opt(left), Opt(TodoEnd(nd, bd, evs, todo)));
    }
  }

  lemma MakesAndThen(nd: Node, a: seq<Visit>, b: seq<Visit>, c: seq<Visit>, made: seq<PostRequest>,
                     more: seq<PostRequest>, todo: seq<PostRequest>, left: seq<PostRequest>, end: seq<PostRequest>)
    requires a <= b <= c
    requires made + left == todo + Requests(nd, CallsOf(b[|a|..], nd.handler, PACKET_READY))
    requires more + end == left + Requests(nd, CallsOf(c[|b|..], nd.handler, PACKET_READY))
    ensures made + more + end == todo + Requests(nd, CallsOf(c[|a|..], nd.handler, PACKET_READY))
  {
    var first, second := CallsOf(b[|a|..], nd.handler, PACKET_READY), CallsOf(c[|b|..], nd.handler, PACKET_READY);
    assert c[|a|..] == b[|a|..] + c[|b|..];
    CallsConcat(b[|a|..], c[|b|..], nd.handler, PACKET_READY);
    RequestsConcat(nd, first, second);
    calc {
      made + more + end;
      { Assoc(made, more, end); Assoc(made, left, Requests(nd, second)); }
      made + left + Requests(nd, second);
      { Assoc(todo, Requests(nd, first), Requests(nd, second)); }
      todo + (Requests(nd, first) + Requests(nd, second));
    }
  }

  // ---- What is posted arrives ----

  /** No post of the proxy is refused: the queue has room and the pool a free element. */
  ghost predicate Unrefused(nd: Node, bd: Board, evs: seq<BoardEvent>)
    requires BoardInv(nd.cfg, bd) && BoardRun(nd.cfg, bd, evs)
    decreases |evs|
  {
    |evs| == 0 ||
    ((ByProxy(evs[0]) ==> Grants(nd.cfg, bd.sys, evs[0].ev.id)) &&
     (BoardStepKeepsInv(nd.cfg, bd, evs[0]); Unrefused(nd, BoardStep(nd.cfg, bd, evs[0]), evs[1..])))
  }

  ghost predicate Grants(cfg: Config, s: Sys, id: int) {
    && |s.posted| - s.done < QUEUE_MAX && Lookup(cfg, id).Some?
    && var pool := cfg.pools[Lookup(cfg, id).value];
       exists e :: pool.base <= e < pool.base + pool.amount && e < |s.own| && s.own[e] == Free
  }

  /** The message with which a request comes to be posted. */
  ghost predicate Posts(cfg: Config, m: Message, r: PostRequest) {
    && m.id == r.id && Lookup(cfg, r.id).Some?
    && cfg.pools[Lookup(cfg, r.id).value].msgSize <= |r.data|
    && m.bytes == r.data[..cfg.pools[Lookup(cfg, r.id).value].msgSize]
  }

  lemma ProxyPostLands(nd: Node, bd: Board, be: BoardEvent, todo: Option<PostRequest>)
    requires BoardInv(nd.cfg, bd) && Waiting(nd, bd.sys, todo) && Allowed(nd.cfg, bd, be) && Obeys(nd, bd, be, todo)
    requires ByProxy(be) && Grants(nd.cfg, bd.sys, be.ev.id)
    ensures var t := BoardStep(nd.cfg, bd, be).sys;
            && |t.posted| == |bd.sys.posted| + 1 && bd.sys.posted <= t.posted
            && Posts(nd.cfg, t.posted[|bd.sys.posted|], PostRequest(be.ev.id, be.ev.bytes))
  {
    var s, id := bd.sys, be.ev.id;
    PacketPointerIsForeign(nd.cfg, id, s.posted[s.done].element);
    PumpRuns.CopyPostFailsOnlyWhenExhausted(nd.cfg, s, PROXY, id, be.ev.addr, be.ev.bytes);
    PumpRuns.PostIsQuiet(nd.cfg, s, id, be.ev.addr, be.ev.bytes);
  }

  /** The places of the proxy's posts among all messages posted. */
  ghost predicate Places(cfg: Config, s: Sys, t: Sys, made: seq<PostRequest>, at: seq<nat>) {
    && |at| == |made|
    && (forall j :: 0 <= j < |at| ==> |s.posted| <= at[j] < |t.posted| && Posts(cfg, t.posted[at[j]], made[j]))
    && (forall j, k :: 0 <= j < k < |at| ==> at[j] < at[k])
  }

  lemma {:induction false} PostsLand(nd: Node, bd: Board, evs: seq<BoardEvent>, todo: Option<PostRequest>)
    returns (at: seq<nat>)
    requires BoardInv(nd.cfg, bd) && BoardRun(nd.cfg, bd, evs) && Waiting(nd, bd.sys, todo)
    requires RelayRun(nd, bd, evs, todo) && Unrefused(nd, bd, evs)
    ensures Places(nd.cfg, bd.sys, BoardAfter(nd.cfg, bd, evs).sys, Made(evs), at)
    decreases |evs|
  {
    at := [];
    if |evs| > 0 {
      RelayStep(nd, bd, evs[0], todo);
      var next := BoardStep(nd.cfg, bd, evs[0]);
      at := PostsLand(nd, next, evs[1..], TodoAfter(nd, bd.sys, next.sys, evs[0], todo));
      StepLands(nd, bd, evs[0], todo);
      BoardGrows(nd.cfg, next, evs[1..]);
      at := PlacesCons(nd.cfg, bd.sys, next.sys, BoardAfter(nd.cfg, bd, evs).sys, MadeBy(evs[0]), Made(evs[1..]), at);
    }
  }

  lemma StepLands(nd: Node, bd: Board, be: BoardEvent, todo: Option<PostRequest>)
    requires BoardInv(nd.cfg, bd) && Waiting(nd, bd.sys, todo) && Allowed(nd.cfg, bd, be) && Obeys(nd, bd, be, todo)
    requires ByProxy(be) ==> Grants(nd.cfg, bd.sys, be.ev.id)
    ensures var t := BoardStep(nd.cfg, bd, be).sys;
            && bd.sys.posted <= t.posted
            && (ByProxy(be) ==> |t.posted| == |bd.sys.posted| + 1 &&
                                Posts(nd.cfg, t.posted[|bd.sys.posted|], MadeBy(be)[0]))
  {
    BoardStepGrows(nd.cfg, bd, be);
    if ByProxy(be) {
      ProxyPostLands(nd, bd, be, todo);
    }
  }

  lemma PlacesCons(cfg: Config, s: Sys, m: Sys, t: Sys, first: seq<PostRequest>, made: seq<PostRequest>, rest: seq<nat>)
    returns (at: seq<nat>)
    requires Places(cfg, m, t, made, rest) && s.posted <= m.posted <= t.posted && |first| <= 1
    requires |first| == 1 ==> |m.posted| == |s.posted| + 1 && Posts(cfg, m.posted[|s.posted|], first[0])
    ensures Places(cfg, s, t, first + made, at)
  {
    if |first| == 0 {
      assert first + made == made;
      at := rest;
    } else {
      at := [|s.posted|] + rest;
      assert t.posted[|s.posted|] == m.posted[|s.posted|];
    }
  }

  // ---- What arrives as packets ----

  /** A packet buffer as the receiver posts it: its length fits, and it came in on an interface that
      the board has. */
  predicate FromReceiver(bytes: seq<byte>) {
    |bytes| == PACKET_SIZE && PayloadLen(bytes) <= 125 && bytes[AT_INTERFACE] < SenderModel.INTERFACES
  }

  /** All packet messages among these are such buffers. */
  predicate Sized(ms: seq<Message>) {
    forall j :: 0 <= j < |ms| && ms[j].id == PACKET_READY ==> FromReceiver(ms[j].bytes)
  }

  predicate Buffers(shown: seq<seq<byte>>) {
    forall j :: 0 <= j < |shown| ==> FromReceiver(shown[j])
  }

  function PacketsFrom(shown: seq<seq<byte>>): (r: seq<Packet>)
    requires Buffers(shown)
    ensures |r| == |shown| && forall j :: 0 <= j < |shown| ==> r[j] == PacketOf(shown[j])
  {
    seq(|shown|, j requires 0 <= j < |shown| => PacketOf(shown[j]))
  }

  lemma {:induction false} SizedBuffers(ms: seq<Message>)
    requires Sized(ms)
    ensures Buffers(MessagesOf(ms, PACKET_READY))
  {
    if |ms| > 0 {
      SizedBuffers(ms[1..]);
    }
  }

  lemma PacketsFromCons(ms: seq<Message>)
    requires Sized(ms) && |ms| > 0
    ensures Buffers(MessagesOf(ms, PACKET_READY)) && Buffers(MessagesOf(ms[1..], PACKET_READY))
    ensures PacketsFrom(MessagesOf(ms, PACKET_READY)) ==
            (if ms[0].id == PACKET_READY then [PacketOf(ms[0].bytes)] else []) +
            PacketsFrom(MessagesOf(ms[1..], PACKET_READY))
  {
    SizedBuffers(ms);
    SizedBuffers(ms[1..]);
  }

  lemma {:induction false} PacketsInConcat(before: seq<Message>, ms: seq<Message>)
    requires Sized(ms)
    ensures Buffers(MessagesOf(ms, PACKET_READY))
    ensures PacketsIn(before + ms) == PacketsIn(before) + PacketsFrom(MessagesOf(ms, PACKET_READY))
    decreases |ms|
  {
    if |ms| == 0 {
      assert before + ms == before;
    } else {
      PacketsInConcat(before + [ms[0]], ms[1..]);
      PacketsInSnoc(before, ms[0]);
      PacketsFromCons(ms);
      Assoc(before, [ms[0]], ms[1..]);
      assert [ms[0]] + ms[1..] == ms;
      Assoc(PacketsIn(before), if ms[0].id == PACKET_READY then [PacketOf(ms[0].bytes)] else [],
            PacketsFrom(MessagesOf(ms[1..], PACKET_READY)));
    }
  }

  lemma StepIsSized(cfg: Config, bd: Board, be: BoardEvent)
    requires BoardInv(cfg, bd) && Allowed(cfg, bd, be)
    ensures var t := BoardStep(cfg, bd, be).sys;
            bd.sys.posted <= t.posted && Sized(t.posted[|bd.sys.posted|..])
  {
    BoardStepGrows(cfg, bd, be);
    match be
    case Byte(b) =>
      ReceiveRefines(cfg, bd, b);
      PostedIsSized(bd.sys, Receive(cfg, bd, b).sys,
        ReceiverModel.Step(AbsRx(cfg, bd), ReceiverModel.Input(b, EnvOf(cfg, bd))).posted);
    case Other(ev) => OthersAreSized(cfg, bd.sys, ev);
  }

  lemma PostedIsSized(s: Sys, t: Sys, packets: seq<Packet>)
    requires Posted(s, t, packets)
    ensures s.posted <= t.posted && Sized(t.posted[|s.posted|..])
  {
  }

  lemma OthersAreSized(cfg: Config, s: Sys, ev: Event)
    requires Inv(cfg, s) && Disciplined(cfg, s, ev) && Foreign(ev) && s.posted <= Apply(cfg, s, ev).posted
    ensures Sized(Apply(cfg, s, ev).posted[|s.posted|..])
  {
  }

  lemma {:induction false} RunIsSized(cfg: Config, bd: Board, evs: seq<BoardEvent>)
    requires BoardInv(cfg, bd) && BoardRun(cfg, bd, evs)
    ensures bd.sys.posted <= BoardAfter(cfg, bd, evs).sys.posted
    ensures Sized(BoardAfter(cfg, bd, evs).sys.posted[|bd.sys.posted|..])
    decreases |evs|
  {
    if |evs| > 0 {
      BoardStepKeepsInv(cfg, bd, evs[0]);
      StepIsSized(cfg, bd, evs[0]);
      RunIsSized(cfg, BoardStep(cfg, bd, evs[0]), evs[1..]);
      SizedAndThen(bd.sys.posted, BoardStep(cfg, bd, evs[0]).sys.posted, BoardAfter(cfg, bd, evs).sys.posted);
    }
  }

  lemma SizedAndThen(a: seq<Message>, b: seq<Message>, c: seq<Message>)
    requires a <= b <= c && Sized(b[|a|..]) && Sized(c[|b|..])
    ensures Sized(c[|a|..])
  {
    assert c[|a|..] == b[|a|..] + c[|b|..];
  }

  lemma NewPackets(cfg: Config, bd: Board, evs: seq<BoardEvent>, packets: seq<Packet>)
    requires BoardInv(cfg, bd) && BoardRun(cfg, bd, evs)
    requires PacketsIn(BoardAfter(cfg, bd, evs).sys.posted) == PacketsIn(bd.sys.posted) + packets
    ensures bd.sys.posted <= BoardAfter(cfg, bd, evs).sys.posted
    ensures var shown := MessagesOf(BoardAfter(cfg, bd, evs).sys.posted[|bd.sys.posted|..], PACKET_READY);
            Buffers(shown) && PacketsFrom(shown) == packets
  {
    RunIsSized(cfg, bd, evs);
    NewPacketsFrom(bd.sys.posted, BoardAfter(cfg, bd, evs).sys.posted, packets);
  }

  lemma NewPacketsFrom(s: seq<Message>, t: seq<Message>, packets: seq<Packet>)
    requires s <= t && Sized(t[|s|..]) && PacketsIn(t) == PacketsIn(s) + packets
    ensures Buffers(MessagesOf(t[|s|..], PACKET_READY))
    ensures PacketsFrom(MessagesOf(t[|s|..], PACKET_READY)) == packets
  {
    PacketsInConcat(s, t[|s|..]);
    assert s + t[|s|..] == t;
    SameTail(PacketsIn(s), packets, PacketsFrom(MessagesOf(t[|s|..], PACKET_READY)));
  }

  lemma SameTail(a: seq<Packet>, b: seq<Packet>, c: seq<Packet>)
    requires a + b == a + c
    ensures b == c
  {
    assert b == (a + b)[|a|..] == (a + c)[|a|..] == c;
  }

  // ---- Routing and passing on ----

  /** The endpoint calls that the dispatcher's callback makes. */
  function EndpointCalls(endpoints: seq<byte>, shown: seq<seq<byte>>): seq<EndpointCall>
    requires Buffers(shown)
  {
    if |shown| == 0 then []
    else
      var c := Dispatched(endpoints, PACKET_READY, shown[0]);
      (if c.Some? then [c.value] else []) + EndpointCalls(endpoints, shown[1..])
  }

  /** The packets for which the board has an endpoint. */
  function Addressed(endpoints: seq<byte>, packets: seq<Packet>): seq<Packet> {
    if |packets| == 0 then []
    else (if packets[0].id in endpoints then [packets[0]] else []) + Addressed(endpoints, packets[1..])
  }

  predicate AllRouted(endpoints: seq<byte>, calls: seq<EndpointCall>, packets: seq<Packet>) {
    |calls| == |packets| && forall j :: 0 <= j < |calls| ==> RoutedTo(endpoints, calls[j], packets[j])
  }

  lemma BufferIsRouted(endpoints: seq<byte>, bytes: seq<byte>)
    requires FromReceiver(bytes)
    ensures var c, p := Dispatched(endpoints, PACKET_READY, bytes), PacketOf(bytes);
            (c.Some? <==> p.id in endpoints) && (c.Some? ==> RoutedTo(endpoints, c.value, p))
  {
    assert bytes[AT_PACKET..][..PayloadLen(bytes)] == bytes[AT_PACKET..AT_PACKET + PayloadLen(bytes)];
  }

  lemma {:induction false} CallsAreRouted(endpoints: seq<byte>, shown: seq<seq<byte>>)
    requires Buffers(shown)
    ensures AllRouted(endpoints, EndpointCalls(endpoints, shown), Addressed(endpoints, PacketsFrom(shown)))
  {
    if |shown| > 0 {
      BufferIsRouted(endpoints, shown[0]);
      CallsAreRouted(endpoints, shown[1..]);
      assert PacketsFrom(shown)[0] == PacketOf(shown[0]) && PacketsFrom(shown)[1..] == PacketsFrom(shown[1..]);
    }
  }

  /** What the proxy endpoint passes on of the packets that the callback is called with. */
  function PassedOn(nd: Node, tx: SenderModel.State, shown: seq<seq<byte>>): SenderModel.State
    requires Buffers(shown)
  {
    if |shown| == 0 then tx
    else
      var before, bytes := PassedOn(nd, tx, shown[..|shown| - 1]), shown[|shown| - 1];
      match Dispatched(nd.endpoints, PACKET_READY, bytes)
      case None => before
      case Some(call) =>
        if nd.endpoints[call.endpoint] == PROXY_ENDPOINT then
          Forwarded(before, call.interface, call.packet[..call.len], SenderModel.INTERFACES)
        else before
  }

  lemma {:induction false} NothingPassedOn(nd: Node, tx: SenderModel.State, shown: seq<seq<byte>>)
    requires Buffers(shown)
    ensures PassedOn(nd, tx, shown) == tx
  {
    if |shown| > 0 {
      NothingPassedOn(nd, tx, shown[..|shown| - 1]);
      var bytes := shown[|shown| - 1];
      BufferIsRouted(nd.endpoints, bytes);
      var call := Dispatched(nd.endpoints, PACKET_READY, bytes);
      if call.Some? {
        NothingGoesBack(tx, call.value.interface, call.value.packet[..call.value.len]);
      }
    }
  }

  // ---- Sequences of messages ----

  /** The packet that carries a message. */
  function Parcel(ids: seq<IdPair>, m: Mail): Packet
    requires IdsFit(ids) && FirstInternal(ids, m.id, 0).Some?
  {
    Packet(PROXY_ENDPOINT, IdBytes(ids[FirstInternal(ids, m.id, 0).value].externalID) + m.data)
  }

  ghost predicate AllSendable(pools: seq<Pool>, ids: seq<IdPair>, ms: seq<Mail>) {
    IdsFit(ids) && forall j :: 0 <= j < |ms| ==> Sendable(pools, ids, ms[j])
  }

  function Parcels(ids: seq<IdPair>, ms: seq<Mail>): (r: seq<Packet>)
    requires IdsFit(ids) && forall j :: 0 <= j < |ms| ==> FirstInternal(ids, ms[j].id, 0).Some?
    ensures |r| == |ms| && forall j :: 0 <= j < |ms| ==> r[j] == Parcel(ids, ms[j])
  {
    seq(|ms|, j requires 0 <= j < |ms| => Parcel(ids, ms[j]))
  }

  /** What board A's proxy does with the messages, one after the other. */
  ghost function SendAll(pools: seq<Pool>, ids: seq<IdPair>, tx: SenderModel.State, ms: seq<Mail>): SenderModel.State
    requires AllSendable(pools, ids, ms)
    decreases |ms|
  {
    if |ms| == 0 then tx else SendAll(pools, ids, Outgoing(pools, ids, tx, ms[0].id, ms[0].data), ms[1..])
  }

  lemma {:induction false} SentAsFrames(pools: seq<Pool>, ids: seq<IdPair>, tx: SenderModel.State, ms: seq<Mail>)
    requires AllSendable(pools, ids, ms) && !tx.isSending
    ensures SendAll(pools, ids, tx, ms).wire == tx.wire + EncodeAll(Parcels(ids, ms))
    decreases |ms|
  {
    if |ms| > 0 {
      var first := Outgoing(pools, ids, tx, ms[0].id, ms[0].data);
      OutgoingIsOneFrame(pools, ids, tx, ms[0].id, ms[0].data);
      SentAsFrames(pools, ids, first, ms[1..]);
      var p := Parcel(ids, ms[0]);
      assert Parcels(ids, ms)[1..] == Parcels(ids, ms[1..]);
      Assoc(tx.wire, Encode(p.id, p.payload), EncodeAll(Parcels(ids, ms[1..])));
    }
  }

  /** The request says the message. */
  predicate Says(r: PostRequest, m: Mail) {
    r.id == m.id && |m.data| <= |r.data| && r.data[..|m.data|] == m.data
  }

  lemma ParcelIsRequest(nd: Node, pools: seq<Pool>, bytes: seq<byte>, m: Mail)
    requires WellFormed(nd.cfg) && IdsFit(nd.ids) && Sendable(pools, nd.ids, m) && Declares(nd.cfg, m)
    requires PROXY_ENDPOINT in nd.endpoints && |bytes| == PACKET_SIZE && PacketOf(bytes) == Parcel(nd.ids, m)
    ensures RequestFor(nd, bytes).Some? && Says(RequestFor(nd, bytes).value, m)
  {
    SharedTableIff(nd.ids, m.id);
    var wireID := ExternalOf(nd.ids, m.id).value;
    PacketCarries(bytes, wireID, m.data);
    RequestFromMemory(nd.cfg, bytes, nd.endpoints, nd.ids, wireID, m.data, m.id);
  }

  ghost predicate AllDeclared(cfg: Config, ms: seq<Mail>) {
    forall j :: 0 <= j < |ms| ==> Declares(cfg, ms[j])
  }

  predicate AllSay(rs: seq<PostRequest>, ms: seq<Mail>) {
    |rs| == |ms| && forall j :: 0 <= j < |ms| ==> Says(rs[j], ms[j])
  }

  lemma {:induction false} RequestsAt(nd: Node, shown: seq<seq<byte>>)
    requires forall j :: 0 <= j < |shown| ==> RequestFor(nd, shown[j]).Some?
    ensures |Requests(nd, shown)| == |shown|
    ensures forall j :: 0 <= j < |shown| ==> Requests(nd, shown)[j] == RequestFor(nd, shown[j]).value
  {
    if |shown| > 0 {
      RequestsAt(nd, shown[1..]);
    }
  }

  lemma ParcelsAreRequests(nd: Node, pools: seq<Pool>, shown: seq<seq<byte>>, ms: seq<Mail>)
    requires WellFormed(nd.cfg) && AllSendable(pools, nd.ids, ms) && AllDeclared(nd.cfg, ms)
    requires PROXY_ENDPOINT in nd.endpoints && Buffers(shown) && PacketsFrom(shown) == Parcels(nd.ids, ms)
    ensures AllSay(Requests(nd, shown), ms)
  {
    forall j | 0 <= j < |ms|
      ensures RequestFor(nd, shown[j]).Some? && Says(RequestFor(nd, shown[j]).value, ms[j])
    {
      assert PacketsFrom(shown)[j] == Parcels(nd.ids, ms)[j];
      ParcelIsRequest(nd, pools, shown[j], ms[j]);
    }
    assert |shown| == |ms|;
    RequestsAt(nd, shown);
  }

  lemma DecodeParcels(ids: seq<IdPair>, pools: seq<Pool>, ms: seq<Mail>)
    requires AllSendable(pools, ids, ms)
    ensures Decode(EncodeAll(Parcels(ids, ms))) == Parcels(ids, ms)
  {
    DecodeEncodeAll(Parcels(ids, ms));
  }

  // ---- The whole way ----

  /** Board B: a run in which it receives these bytes, its packet dispatcher standing in slot i of
      the packet pool, and nothing runs out: from an empty queue to an empty queue. */
  ghost predicate Relays(nd: Node, bd: Board, evs: seq<BoardEvent>, i: nat, sent: seq<byte>) {
    && BoardInv(nd.cfg, bd) && BoardRun(nd.cfg, bd, evs) && RelayRun(nd, bd, evs, None)
    && NeverExhausted(nd.cfg, bd, evs) && Unrefused(nd, bd, evs)
    && ReceiverModel.Hunting(AbsRx(nd.cfg, bd)) && BytesIn(evs) == sent
    && StandsAt(SlotsOf(nd.cfg, bd.sys, PACKET_READY), nd.handler, i)
    && (forall be :: be in evs ==> !ChangesSlots(be, PACKET_READY))
    && bd.sys.done == |bd.sys.posted|
    && (var t := BoardAfter(nd.cfg, bd, evs).sys; t.done == |t.posted|)
  }

  /** The callback of B's packet dispatcher is called with exactly the packets that the bytes
      carry. */
  lemma PacketsAreShown(nd: Node, bd: Board, evs: seq<BoardEvent>, i: nat, sent: seq<byte>)
    requires Relays(nd, bd, evs, i, sent)
    ensures var s, t := bd.sys, BoardAfter(nd.cfg, bd, evs).sys;
            && s.visits <= t.visits
            && var shown := CallsOf(t.visits[|s.visits|..], nd.handler, PACKET_READY);
               Buffers(shown) && PacketsFrom(shown) == Decode(sent)
  {
    BoardDecodes(nd.cfg, bd, evs);
    NewPackets(nd.cfg, bd, evs, Decode(sent));
    BoardCallsAreMessages(nd.cfg, bd, evs, nd.handler, PACKET_READY, i);
    EmptyQueueShowsAll(nd.cfg, bd.sys, BoardAfter(nd.cfg, bd, evs).sys, nd.handler, PACKET_READY, i);
  }

  /** Each of them that has an endpoint reaches it, in order, and no other endpoint is called. */
  lemma PacketsReachEndpoints(nd: Node, bd: Board, evs: seq<BoardEvent>, i: nat, sent: seq<byte>)
    requires Relays(nd, bd, evs, i, sent)
    ensures var s, t := bd.sys, BoardAfter(nd.cfg, bd, evs).sys;
            && s.visits <= t.visits
            && var shown := CallsOf(t.visits[|s.visits|..], nd.handler, PACKET_READY);
               && Buffers(shown)
               && AllRouted(nd.endpoints, EndpointCalls(nd.endpoints, shown), Addressed(nd.endpoints, Decode(sent)))
  {
    PacketsAreShown(nd, bd, evs, i, sent);
    var s, t := bd.sys, BoardAfter(nd.cfg, bd, evs).sys;
    CallsAreRouted(nd.endpoints, CallsOf(t.visits[|s.visits|..], nd.handler, PACKET_READY));
  }

  /** And relaying puts no byte on the board's own wire: nothing is echoed. */
  lemma NothingIsEchoed(nd: Node, bd: Board, evs: seq<BoardEvent>, i: nat, sent: seq<byte>, tx: SenderModel.State)
    requires Relays(nd, bd, evs, i, sent)
    ensures var s, t := bd.sys, BoardAfter(nd.cfg, bd, evs).sys;
            && s.visits <= t.visits
            && var shown := CallsOf(t.visits[|s.visits|..], nd.handler, PACKET_READY);
               Buffers(shown) && PassedOn(nd, tx, shown) == tx
  {
    PacketsAreShown(nd, bd, evs, i, sent);
    var s, t := bd.sys, BoardAfter(nd.cfg, bd, evs).sys;
    NothingPassedOn(nd, tx, CallsOf(t.visits[|s.visits|..], nd.handler, PACKET_READY));
  }

  /** With an empty queue the proxy has nothing left to post. */
  lemma NothingLeft(nd: Node, bd: Board, evs: seq<BoardEvent>, i: nat, sent: seq<byte>)
    requires Relays(nd, bd, evs, i, sent)
    ensures TodoEnd(nd, bd, evs, None).None?
  {
    var left := TodoEnd(nd, bd, evs, None);
    assert Waiting(nd, BoardAfter(nd.cfg, bd, evs).sys, left);
  }

  /** The proxy posts what B's packets carry, in order. */
  lemma PacketsAreMade(nd: Node, bd: Board, evs: seq<BoardEvent>, i: nat, sent: seq<byte>)
    requires Relays(nd, bd, evs, i, sent)
    ensures var s, t := bd.sys, BoardAfter(nd.cfg, bd, evs).sys;
            s.visits <= t.visits && Made(evs) == Requests(nd, CallsOf(t.visits[|s.visits|..], nd.handler, PACKET_READY))
  {
    RelayMakes(nd, bd, evs, None);
    NothingLeft(nd, bd, evs, i, sent);
    var s, t := bd.sys, BoardAfter(nd.cfg, bd, evs).sys;
    var rs := Requests(nd, CallsOf(t.visits[|s.visits|..], nd.handler, PACKET_READY));
    assert Made(evs) + [] == Made(evs) && [] + rs == rs;
  }

  /** Any sequence of messages that board A's proxy sends is posted on board B, in the same order,
      under the same ids and with the same bytes, whatever else happens on B in between. */
  lemma MessagesAreRelayed(poolsA: seq<Pool>, tx: SenderModel.State, ms: seq<Mail>, sent: seq<byte>,
                           nd: Node, bd: Board, evs: seq<BoardEvent>, i: nat)
    returns (at: seq<nat>)
    requires AllSendable(poolsA, nd.ids, ms) && !tx.isSending
    requires SendAll(poolsA, nd.ids, tx, ms).wire == tx.wire + sent
    requires Relays(nd, bd, evs, i, sent) && AllDeclared(nd.cfg, ms) && PROXY_ENDPOINT in nd.endpoints
    ensures |at| == |ms| && forall j, k :: 0 <= j < k < |at| ==> at[j] < at[k]
    ensures var s, t := bd.sys, BoardAfter(nd.cfg, bd, evs).sys;
            forall j :: 0 <= j < |ms| ==>
              |s.posted| <= at[j] < |t.posted| && t.posted[at[j]].id == ms[j].id && t.posted[at[j]].bytes == ms[j].data
  {
    SentAsFrames(poolsA, nd.ids, tx, ms);
    assert sent == (tx.wire + sent)[|tx.wire|..] == EncodeAll(Parcels(nd.ids, ms));
    DecodeParcels(nd.ids, poolsA, ms);
    PacketsAreShown(nd, bd, evs, i, sent);
    PacketsAreMade(nd, bd, evs, i, sent);
    var s, t := bd.sys, BoardAfter(nd.cfg, bd, evs).sys;
    ParcelsAreRequests(nd, poolsA, CallsOf(t.visits[|s.visits|..], nd.handler, PACKET_READY), ms);
    at := PostsLand(nd, bd, evs, None);
    forall j | 0 <= j < |ms|
      ensures |s.posted| <= at[j] < |t.posted| && t.posted[at[j]].id == ms[j].id && t.posted[at[j]].bytes == ms[j].data
    {
      assert Posts(nd.cfg, t.posted[at[j]], Made(evs)[j]) && Says(Made(evs)[j], ms[j]) && Declares(nd.cfg, ms[j]);
    }
  }
}
