/** Theorems about whole runs of the message pump: any number of disciplined clients and the
    dispatcher, interleaved step by step in any order. */
module PumpRuns {
  import opened Bytes
  import opened Options
  import opened Search
  import opened PumpModel
  import opened PumpInvariant

  // ---- Runs ----

  lemma InitialInv(cfg: Config, s: Sys)
    requires IsInitial(cfg, s)
    ensures Inv(cfg, s)
  {
  }

  ghost predicate DisciplinedRun(cfg: Config, s: Sys, evs: seq<Event>)
    requires Inv(cfg, s)
    decreases |evs|
  {
    |evs| == 0 ||
    (Disciplined(cfg, s, evs[0]) &&
     (StepKeepsInv(cfg, s, evs[0]); DisciplinedRun(cfg, Apply(cfg, s, evs[0]), evs[1..])))
  }

  /** Where a disciplined run ends; every state on the way satisfies the invariant. */
  ghost function After(cfg: Config, s: Sys, evs: seq<Event>): (s': Sys)
    requires Inv(cfg, s) && DisciplinedRun(cfg, s, evs)
    ensures Inv(cfg, s')
    decreases |evs|
  {
    if |evs| == 0 then s
    else
      StepKeepsInv(cfg, s, evs[0]);
      After(cfg, Apply(cfg, s, evs[0]), evs[1..])
  }

  // ---- First in, first out, exactly once, with the bytes of the post ----

  lemma PostIsQuiet(cfg: Config, s: Sys, id: int, addr: int, bytes: seq<byte>)
    requires WellFormed(cfg) && SysShape(cfg, s) && PostCallable(cfg, id, addr, bytes)
    ensures var t := PostStep(cfg, s, id, addr, bytes);
            s.posted <= t.posted && t.visits == s.visits && t.done == s.done && t.p.pc == s.p.pc
  {
  }

  /** Only the dispatcher's own steps concern the dispatcher. */
  lemma OthersAreQuiet(cfg: Config, s: Sys, ev: Event)
    requires WellFormed(cfg) && SysShape(cfg, s) && Callable(cfg, s, ev) && ev != Dispatch
    ensures var t := Apply(cfg, s, ev);
            s.posted <= t.posted && t.visits == s.visits && t.done == s.done && t.p.pc == s.p.pc
  {
    match ev
    case PostMessage(_, id, addr, bytes) => PostIsQuiet(cfg, s, id, addr, bytes);
    case _ =>
  }

  lemma DispatchGrows(cfg: Config, s: Sys)
    requires SysShape(cfg, s)
    ensures var t := DispatchStep(cfg, s);
            t.posted == s.posted && s.done <= t.done && s.visits <= t.visits
  {
  }

  /** One step appends at most one message to the history and pops at most one. */
  lemma StepGrows(cfg: Config, s: Sys, ev: Event)
    requires Inv(cfg, s) && Disciplined(cfg, s, ev)
    ensures s.posted <= Apply(cfg, s, ev).posted
    ensures s.done <= Apply(cfg, s, ev).done
    ensures s.visits <= Apply(cfg, s, ev).visits
  {
    if ev == Dispatch {
      DispatchGrows(cfg, s);
    } else {
      OthersAreQuiet(cfg, s, ev);
    }
  }

  lemma {:induction false} RunGrows(cfg: Config, s: Sys, evs: seq<Event>)
    requires Inv(cfg, s) && DisciplinedRun(cfg, s, evs)
    ensures s.posted <= After(cfg, s, evs).posted
    ensures s.done <= After(cfg, s, evs).done
    ensures s.visits <= After(cfg, s, evs).visits
    decreases |evs|
  {
    if |evs| > 0 {
      StepKeepsInv(cfg, s, evs[0]);
      StepGrows(cfg, s, evs[0]);
      RunGrows(cfg, Apply(cfg, s, evs[0]), evs[1..]);
    }
  }

  function QueueSlot(p: Pump, i: nat): Entry
    requires |p.queue| == QUEUE_MAX
  {
    p.queue[(p.front + i) % QUEUE_MAX]
  }

  /** The ring is a queue: `size` entries from the front on are the messages posted and not yet
      done, oldest first, and `tail` is where the next one goes. Message n lies in slot n mod N. */
  lemma RingIsQueue(cfg: Config, s: Sys)
    requires Inv(cfg, s)
    ensures s.p.front == s.done % QUEUE_MAX && s.p.tail == |s.posted| % QUEUE_MAX
    ensures 0 <= s.p.size <= QUEUE_MAX && s.p.tail == (s.p.front + s.p.size) % QUEUE_MAX
    ensures |s.posted| == s.done + s.p.size
    ensures forall i :: 0 <= i < s.p.size ==> EntryOk(cfg, QueueSlot(s.p, i), s.posted[s.done + i])
  {
    RingTail(s);
    SlotIsMod(s.done);
    SlotIsMod(|s.posted|);
    forall i | 0 <= i < s.p.size
      ensures EntryOk(cfg, QueueSlot(s.p, i), s.posted[s.done + i])
    {
      RingEntry(cfg, s, i);
    }
  }

  lemma RingTail(s: Sys)
    requires RingOk(s)
    ensures s.p.tail == (s.p.front + s.p.size) % QUEUE_MAX
  {
    SlotOf(s.done, s.p.size);
  }

  lemma QueueSlotIs(p: Pump, done: nat, i: nat)
    requires |p.queue| == QUEUE_MAX && p.front == Slot(done)
    ensures QueueSlot(p, i) == p.queue[Slot(done + i)]
  {
    SlotOf(done, i);
  }

  lemma RingEntry(cfg: Config, s: Sys, i: nat)
    requires WellFormed(cfg) && RingOk(s) && |s.p.queue| == QUEUE_MAX && QueueMeans(cfg, s) && i < s.p.size
    ensures EntryOk(cfg, QueueSlot(s.p, i), s.posted[s.done + i])
  {
    QueueSlotIs(s.p, s.done, i);
    var n := s.done + i;
    assert EntryOk(cfg, s.p.queue[Slot(n)], s.posted[n]);
  }

  /** Over every run from power-up, the receiver slots are shown exactly the messages posted, in
      the order of posting: every slot once for message 0, then every slot once for message 1,
      and so on, each time with the id and the bytes that the message had when it was posted. */
  lemma DeliveredOnceInOrder(cfg: Config, s: Sys, evs: seq<Event>)
    requires IsInitial(cfg, s) && Inv(cfg, s) && DisciplinedRun(cfg, s, evs)
    ensures var t := After(cfg, s, evs);
            && RECEIVERS * t.done <= |t.visits| <= RECEIVERS * |t.posted|
            && (forall n: nat, i: nat :: i < RECEIVERS && RECEIVERS * n + i < |t.visits| ==> VisitOk(t, n, i))
  {
    var t := After(cfg, s, evs);
    assert RingOk(t) && VisitsOk(t);
  }

  lemma SlotOf(n: nat, i: nat)
    ensures (Slot(n) + i) % QUEUE_MAX == Slot(n + i)
  {
    var q := SlotSpan(n);
    var r := SlotSpan(n + i);
    assert Slot(n) + i == QUEUE_MAX * (r - q) + Slot(n + i);
  }

  /** No overwrite in flight: as long as a message is in flight, its queue slot, its element and
      the element's bytes are what they were, whatever else happens in between. */
  lemma NoOverwriteInFlight(cfg: Config, s: Sys, evs: seq<Event>, n: nat)
    requires Inv(cfg, s) && DisciplinedRun(cfg, s, evs)
    requires InFlight(s, n) && InFlight(After(cfg, s, evs), n)
    ensures var t := After(cfg, s, evs);
            && t.posted[n] == s.posted[n]
            && t.p.queue[Slot(n)] == s.p.queue[Slot(n)]
            && t.p.data[t.posted[n].element] == s.p.data[s.posted[n].element] == s.posted[n].bytes
  {
    var t := After(cfg, s, evs);
    RunGrows(cfg, s, evs);
    assert t.posted[..|s.posted|][n] == t.posted[n];
    assert EntryOk(cfg, s.p.queue[Slot(n)], s.posted[n]);
    assert EntryOk(cfg, t.p.queue[Slot(n)], t.posted[n]);
    assert FlightOk(s, n) && FlightOk(t, n);
  }

  /** Someone has locked element e in every state of the run. */
  ghost predicate LockedThroughout(cfg: Config, s: Sys, evs: seq<Event>, e: nat)
    requires Inv(cfg, s) && DisciplinedRun(cfg, s, evs) && e < cfg.elements
    decreases |evs|
  {
    s.locks[e] > 0 &&
    (|evs| > 0 ==> (StepKeepsInv(cfg, s, evs[0]); LockedThroughout(cfg, Apply(cfg, s, evs[0]), evs[1..], e)))
  }

  lemma PostLeavesBytes(cfg: Config, s: Sys, id: int, addr: int, bytes: seq<byte>, e: nat)
    requires WellFormed(cfg) && SysShape(cfg, s) && PostCallable(cfg, id, addr, bytes)
    requires e < cfg.elements && !IsFree(s.p.hdr[e])
    ensures var t := PostStep(cfg, s, id, addr, bytes);
            |t.p.data| == cfg.elements && t.p.data[e] == s.p.data[e]
  {
    PostKeepsShape(cfg, s.p, id, addr, bytes);
  }

  lemma LockedStepKeepsBytes(cfg: Config, s: Sys, ev: Event, e: nat)
    requires Inv(cfg, s) && Disciplined(cfg, s, ev) && e < cfg.elements && s.locks[e] > 0
    ensures |Apply(cfg, s, ev).p.data| == cfg.elements && Apply(cfg, s, ev).p.data[e] == s.p.data[e]
  {
    assert !IsFree(s.p.hdr[e]) && !s.own[e].Held? by {
      assert HeaderOk(s.p.hdr[e], s.own[e], s.locks[e], s.p.pc);
    }
    if ev.PostMessage? {
      PostLeavesBytes(cfg, s, ev.id, ev.addr, ev.bytes, e);
    } else {
      OthersLeaveBytes(cfg, s, ev, e);
    }
  }

  lemma OthersLeaveBytes(cfg: Config, s: Sys, ev: Event, e: nat)
    requires WellFormed(cfg) && SysShape(cfg, s) && Disciplined(cfg, s, ev) && !ev.PostMessage?
    requires e < cfg.elements && !s.own[e].Held?
    ensures |Apply(cfg, s, ev).p.data| == cfg.elements && Apply(cfg, s, ev).p.data[e] == s.p.data[e]
  {
  }

  /** What a lock is for: as long as an element is locked its bytes do not change, also when the
      pump has long released it. */
  lemma {:induction false} LockKeepsBytes(cfg: Config, s: Sys, evs: seq<Event>, e: nat)
    requires Inv(cfg, s) && DisciplinedRun(cfg, s, evs) && e < cfg.elements && LockedThroughout(cfg, s, evs, e)
    ensures After(cfg, s, evs).p.data[e] == s.p.data[e]
    decreases |evs|
  {
    if |evs| > 0 {
      StepKeepsInv(cfg, s, evs[0]);
      LockedStepKeepsBytes(cfg, s, evs[0], e);
      LockKeepsBytes(cfg, Apply(cfg, s, evs[0]), evs[1..], e);
    }
  }

  // ---- Every message is dispatched ----

  const ROUND := 8

  /** How far the dispatcher has come: eight steps per message. */
  function Progress(s: Sys): nat {
    ROUND * s.done +
    match s.p.pc
    case Idle => 0
    case Calling(i) => 1 + i
    case Ended => 6
    case Released => 7
  }

  function Dispatches(evs: seq<Event>): nat {
    if |evs| == 0 then 0 else (if evs[0] == Dispatch then 1 else 0) + Dispatches(evs[1..])
  }

  lemma DispatchProgress(cfg: Config, s: Sys)
    requires Inv(cfg, s) && s.done < |s.posted|
    ensures Progress(DispatchStep(cfg, s)) == Progress(s) + 1
  {
    assert RingOk(s);
  }

  lemma IdleDispatch(cfg: Config, s: Sys)
    requires Inv(cfg, s) && s.done == |s.posted|
    ensures DispatchStep(cfg, s) == s
  {
    assert RingOk(s);
  }

  lemma StepProgress(cfg: Config, s: Sys, ev: Event)
    requires Inv(cfg, s) && Disciplined(cfg, s, ev)
    ensures ev == Dispatch && s.done < |s.posted| ==> Progress(Apply(cfg, s, ev)) == Progress(s) + 1
    ensures ev == Dispatch && s.done == |s.posted| ==> Apply(cfg, s, ev) == s
    ensures ev != Dispatch ==> Progress(Apply(cfg, s, ev)) == Progress(s)
  {
    if ev != Dispatch {
      OthersAreQuiet(cfg, s, ev);
    } else if s.done < |s.posted| {
      DispatchProgress(cfg, s);
    } else {
      IdleDispatch(cfg, s);
    }
  }

  lemma {:induction false} RunProgress(cfg: Config, s: Sys, evs: seq<Event>, n: nat)
    requires Inv(cfg, s) && DisciplinedRun(cfg, s, evs) && n < |s.posted|
    ensures After(cfg, s, evs).done > n || Progress(After(cfg, s, evs)) == Progress(s) + Dispatches(evs)
    decreases |evs|
  {
    if |evs| > 0 {
      StepKeepsInv(cfg, s, evs[0]);
      StepGrows(cfg, s, evs[0]);
      StepProgress(cfg, s, evs[0]);
      var s' := Apply(cfg, s, evs[0]);
      RunGrows(cfg, s', evs[1..]);
      RunProgress(cfg, s', evs[1..], n);
    }
  }

  /** Progress: in any run that gives the dispatcher eight steps for every message up to number
      n, however they are interleaved with other steps, message n is done with at the end. */
  lemma EveryMessageIsDispatched(cfg: Config, s: Sys, evs: seq<Event>, n: nat)
    requires Inv(cfg, s) && DisciplinedRun(cfg, s, evs) && n < |s.posted|
    requires Dispatches(evs) >= ROUND * (n + 1 - s.done)
    ensures After(cfg, s, evs).done > n
  {
    var t := After(cfg, s, evs);
    RunProgress(cfg, s, evs, n);
    assert RingOk(t) && Progress(t) <= ROUND * t.done + 7;
  }

  // ---- Ownership is visible in the bits ----

  ghost predicate InQueue(s: Sys, e: nat) {
    exists n :: s.done <= n < |s.posted| && InFlight(s, n) && s.posted[n].element == e
  }

  predicate AtDispatch(s: Sys, e: nat) {
    s.done < |s.posted| && (s.p.pc.Calling? || s.p.pc.Ended?) && s.posted[s.done].element == e
  }

  /** Each element is in exactly one of five states, and its header bits together with its place
      in the queue say which. */
  lemma OwnershipFromBits(cfg: Config, s: Sys, e: nat)
    requires Inv(cfg, s) && e < cfg.elements
    ensures var h := s.p.hdr[e];
            && (s.own[e] == Free <==> h.refCnt == 0)
            && (s.own[e] == Free <==> IsFree(h))
            && (s.own[e].Held? <==> h.flags == InUse && !InQueue(s, e))
            && (s.own[e] == Queued <==> h.flags == PostedNotDispatched)
            && (s.own[e] == Queued <==> InQueue(s, e) && !AtDispatch(s, e))
            && (s.own[e] == Dispatching <==> AtDispatch(s, e))
            && (s.own[e] == Retained <==> h.flags == Nothing && h.refCnt > 0 && !AtDispatch(s, e))
            && h.flags != BufferNotUsable
  {
    assert HeaderOk(s.p.hdr[e], s.own[e], s.locks[e], s.p.pc);
    forall n | s.done <= n < |s.posted| && InFlight(s, n) && s.posted[n].element == e
      ensures s.own[e] == FlightOwner(s, n)
    {
      assert FlightOk(s, n);
    }
    if s.own[e] in {Queued, Dispatching} {
      var n :| s.done <= n < |s.posted| && InFlight(s, n) && s.posted[n].element == e;
    }
    assert AtDispatch(s, e) ==> InFlight(s, s.done);
  }

  /** Reference counting: the count is the number of locks not yet returned, plus one as long as
      a client holds the element or the pump has it, so it never wraps, and returning a lock
      never fails. */
  lemma ReferenceCount(cfg: Config, s: Sys, e: nat)
    requires Inv(cfg, s) && e < cfg.elements
    ensures s.p.hdr[e].refCnt == s.locks[e] + if s.own[e] in {Free, Retained} then 0 else 1
    ensures s.locks[e] > 0 ==> CanUnlock(s.p.hdr[e])
    ensures CanLock(s.p.hdr[e]) <==> s.p.hdr[e].refCnt < 255
    ensures IsFree(s.p.hdr[e]) <==> !s.own[e].Held? && !InQueue(s, e) && s.locks[e] == 0
  {
    assert HeaderOk(s.p.hdr[e], s.own[e], s.locks[e], s.p.pc);
    OwnershipFromBits(cfg, s, e);
  }

  // ---- Conservation ----

  datatype Kind = KFree | KHeld | KQueued | KDispatching | KRetained

  function KindOf(o: Owner): Kind {
    match o
    case Free => KFree
    case Held(_) => KHeld
    case Queued => KQueued
    case Dispatching => KDispatching
    case Retained => KRetained
  }

  function Count(own: seq<Owner>, lo: nat, hi: nat, k: Kind): nat
    requires lo <= hi <= |own|
    decreases hi - lo
  {
    if lo == hi then 0 else (if KindOf(own[lo]) == k then 1 else 0) + Count(own, lo + 1, hi, k)
  }

  lemma {:induction false} CountsSum(own: seq<Owner>, lo: nat, hi: nat)
    requires lo <= hi <= |own|
    ensures Count(own, lo, hi, KFree) + Count(own, lo, hi, KHeld) + Count(own, lo, hi, KQueued)
            + Count(own, lo, hi, KDispatching) + Count(own, lo, hi, KRetained) == hi - lo
    decreases hi - lo
  {
    if lo < hi {
      CountsSum(own, lo + 1, hi);
    }
  }

  lemma {:induction false} NoneOfKind(own: seq<Owner>, lo: nat, hi: nat, k: Kind)
    requires lo <= hi <= |own|
    ensures Count(own, lo, hi, k) == 0 <==> forall e :: lo <= e < hi ==> KindOf(own[e]) != k
    decreases hi - lo
  {
    if lo < hi {
      NoneOfKind(own, lo + 1, hi, k);
    }
  }

  /** Conservation: in every state of every run the elements of a pool are all accounted for, and
      an acquisition fails exactly when none of them is free, or the id is the first, which is
      never served. */
  lemma PoolConserved(cfg: Config, s: Sys, evs: seq<Event>, k: nat)
    requires Inv(cfg, s) && DisciplinedRun(cfg, s, evs) && k < |cfg.pools|
    ensures PoolOk(cfg, cfg.pools[k])
    ensures var t, lo, hi := After(cfg, s, evs), cfg.pools[k].base, cfg.pools[k].base + cfg.pools[k].amount;
            && Count(t.own, lo, hi, KFree) + Count(t.own, lo, hi, KHeld) + Count(t.own, lo, hi, KQueued)
               + Count(t.own, lo, hi, KDispatching) + Count(t.own, lo, hi, KRetained) == cfg.pools[k].amount
            && (Acquirable(cfg, t.p, cfg.pools[k].id).None? <==>
                  cfg.pools[k].id == FIRST_ID || Count(t.own, lo, hi, KFree) == 0)
  {
    assert PoolOk(cfg, cfg.pools[k]);
    LookupOwn(cfg, k);
    AcquirableIff(cfg, After(cfg, s, evs), k);
  }

  lemma AcquirableIff(cfg: Config, t: Sys, k: nat)
    requires Inv(cfg, t) && k < |cfg.pools| && PoolOk(cfg, cfg.pools[k]) && Lookup(cfg, cfg.pools[k].id) == Some(k)
    ensures var lo, hi := cfg.pools[k].base, cfg.pools[k].base + cfg.pools[k].amount;
            && Count(t.own, lo, hi, KFree) + Count(t.own, lo, hi, KHeld) + Count(t.own, lo, hi, KQueued)
               + Count(t.own, lo, hi, KDispatching) + Count(t.own, lo, hi, KRetained) == cfg.pools[k].amount
            && (Acquirable(cfg, t.p, cfg.pools[k].id).None? <==>
                  cfg.pools[k].id == FIRST_ID || Count(t.own, lo, hi, KFree) == 0)
  {
    var lo, hi := cfg.pools[k].base, cfg.pools[k].base + cfg.pools[k].amount;
    CountsSum(t.own, lo, hi);
    NoneOfKind(t.own, lo, hi, KFree);
    forall e | lo <= e < hi
      ensures IsFree(t.p.hdr[e]) <==> KindOf(t.own[e]) == KFree
    {
      assert HeaderOk(t.p.hdr[e], t.own[e], t.locks[e], t.p.pc);
    }
  }

  function Elements(ms: seq<Message>): set<nat> {
    if |ms| == 0 then {} else {ms[0].element} + Elements(ms[1..])
  }

  lemma {:induction false} ElementsMember(ms: seq<Message>, e: nat)
    ensures e in Elements(ms) <==> exists i :: 0 <= i < |ms| && ms[i].element == e
  {
    if |ms| > 0 {
      ElementsMember(ms[1..], e);
      if i :| 0 <= i < |ms[1..]| && ms[1..][i].element == e {
        assert ms[i + 1].element == e;
      }
      if i :| 0 <= i < |ms| && ms[i].element == e {
        assert i == 0 || ms[1..][i - 1].element == e;
      }
    }
  }

  lemma ElementsAt(ms: seq<Message>, lo: nat, e: nat) returns (m: nat)
    requires lo <= |ms| && e in Elements(ms[lo..])
    ensures lo <= m < |ms| && ms[m].element == e
  {
    ElementsMember(ms[lo..], e);
    var i :| 0 <= i < |ms[lo..]| && ms[lo..][i].element == e;
    m := lo + i;
  }

  lemma ElementsIntro(ms: seq<Message>, lo: nat, m: nat)
    requires lo <= m < |ms|
    ensures ms[m].element in Elements(ms[lo..])
  {
    ElementsMember(ms[lo..], ms[m].element);
    assert ms[lo..][m - lo] == ms[m];
  }

  lemma {:induction false} ElementsCount(ms: seq<Message>)
    requires forall i, j :: 0 <= i < j < |ms| ==> ms[i].element != ms[j].element
    ensures |Elements(ms)| == |ms|
  {
    if |ms| > 0 {
      ElementsCount(ms[1..]);
      ElementsMember(ms[1..], ms[0].element);
    }
  }

  function FirstInFlight(s: Sys): nat {
    s.done + if s.p.pc == Released then 1 else 0
  }

  lemma FlightIsOwned(cfg: Config, s: Sys, e: nat)
    requires Inv(cfg, s) && FirstInFlight(s) <= |s.posted|
    requires e in Elements(s.posted[FirstInFlight(s)..])
    ensures e < cfg.elements && s.own[e] in {Queued, Dispatching}
  {
    var n := ElementsAt(s.posted, FirstInFlight(s), e);
    assert InFlight(s, n);
    assert FlightOk(s, n);
  }

  lemma OwnedIsFlight(cfg: Config, s: Sys, e: nat)
    requires Inv(cfg, s) && FirstInFlight(s) <= |s.posted|
    requires e < cfg.elements && s.own[e] in {Queued, Dispatching}
    ensures e in Elements(s.posted[FirstInFlight(s)..])
  {
    var first := FirstInFlight(s);
    var m :| s.done <= m < |s.posted| && InFlight(s, m) && s.posted[m].element == e;
    ElementsIntro(s.posted, first, m);
  }

  lemma InFlightDistinct(cfg: Config, s: Sys)
    requires Inv(cfg, s)
    ensures FirstInFlight(s) <= |s.posted|
    ensures var ms := s.posted[FirstInFlight(s)..];
            forall i, j :: 0 <= i < j < |ms| ==> ms[i].element != ms[j].element
  {
    var first := FirstInFlight(s);
    var ms := s.posted[first..];
    forall i, j | 0 <= i < j < |ms|
      ensures ms[i].element != ms[j].element
    {
      assert InFlight(s, first + i);
      assert s.posted[first + i].element != s.posted[first + j].element;
    }
  }

  /** As many elements are owned by the queue and the dispatcher as there are messages in it, not
      counting a front entry that is already released and only waits for its pop. */
  lemma QueueHoldsItsElements(cfg: Config, s: Sys)
    requires Inv(cfg, s)
    ensures |set e: nat | e < cfg.elements && s.own[e] in {Queued, Dispatching}|
         == s.p.size - if s.p.pc == Released then 1 else 0
  {
    var first := FirstInFlight(s);
    InFlightDistinct(cfg, s);
    var ms := s.posted[first..];
    ElementsCount(ms);
    var owned := set e: nat | e < cfg.elements && s.own[e] in {Queued, Dispatching};
    forall e: nat
      ensures e in Elements(ms) <==> e in owned
    {
      if e in Elements(ms) {
        FlightIsOwned(cfg, s, e);
      }
      if e in owned {
        OwnedIsFlight(cfg, s, e);
      }
    }
    assert Elements(ms) == owned;
  }

  // ---- When posting succeeds ----

  /** A client that posts an element it holds fails only because the queue is full. */
  lemma HeldPostFailsOnlyWhenFull(cfg: Config, s: Sys, who: nat, id: int, addr: int, bytes: seq<byte>)
    requires Inv(cfg, s) && Disciplined(cfg, s, PostMessage(who, id, addr, bytes)) && id < LAST_ID
    requires Classify(cfg, cfg.pools[Lookup(cfg, id).value], addr).Element?
    ensures Post(cfg, s.p, id, addr, bytes).element.None? <==> |s.posted| - s.done == QUEUE_MAX
  {
    FullIff(cfg, s);
    var pool := cfg.pools[Lookup(cfg, id).value];
    var i := Classify(cfg, pool, addr).i;
    assert InMemory(cfg, pool);
    ClassifyIff(cfg, pool, addr, i);
    var e := pool.base + i;
    assert HeaderOk(s.p.hdr[e], s.own[e], s.locks[e], s.p.pc);
  }

  /** A message from elsewhere is refused exactly when the queue is full or its pool has no free
      element; otherwise it is queued with a copy of its bytes. */
  lemma CopyPostFailsOnlyWhenExhausted(cfg: Config, s: Sys, who: nat, id: int, addr: int, bytes: seq<byte>)
    requires Inv(cfg, s) && Disciplined(cfg, s, PostMessage(who, id, addr, bytes)) && id < LAST_ID
    requires Classify(cfg, cfg.pools[Lookup(cfg, id).value], addr) == Outside
    ensures PoolOk(cfg, cfg.pools[Lookup(cfg, id).value])
    ensures var pool := cfg.pools[Lookup(cfg, id).value];
            var t := PostStep(cfg, s, id, addr, bytes);
            if |s.posted| - s.done == QUEUE_MAX ||
               (forall e :: pool.base <= e < pool.base + pool.amount ==> s.own[e] != Free)
            then t == s
            else |t.posted| == |s.posted| + 1 &&
                 t.posted[|s.posted|].id == id && t.posted[|s.posted|].bytes == bytes[..pool.msgSize]
  {
    FullIff(cfg, s);
    var pool := cfg.pools[Lookup(cfg, id).value];
    assert PoolOk(cfg, pool);
    forall e | pool.base <= e < pool.base + pool.amount
      ensures IsFree(s.p.hdr[e]) <==> s.own[e] == Free
    {
      OwnershipFromBits(cfg, s, e);
    }
  }

  // ---- What the discipline is needed for ----

  lemma ElementAddr(cfg: Config, k: nat, i: nat)
    requires WellFormed(cfg) && k < |cfg.pools| && i < cfg.pools[k].amount
    ensures PoolOk(cfg, cfg.pools[k]) && Lookup(cfg, cfg.pools[k].id) == Some(k)
    ensures 0 <= PayloadAddr(cfg, cfg.pools[k], i) < ADDRESSES
    ensures Classify(cfg, cfg.pools[k], PayloadAddr(cfg, cfg.pools[k], i)) == Element(i)
  {
    var pool := cfg.pools[k];
    assert PoolOk(cfg, pool) && InMemory(cfg, pool);
    LookupOwn(cfg, k);
    PayloadInPool(cfg, pool, i);
    ClassifyIff(cfg, pool, PayloadAddr(cfg, pool, i), i);
  }

  lemma ElementPostIs(cfg: Config, s: Sys, k: nat, i: nat, bytes: seq<byte>)
    requires WellFormed(cfg) && SysShape(cfg, s) && k < |cfg.pools| && i < cfg.pools[k].amount
    ensures cfg.pools[k].base + i < cfg.elements && Lookup(cfg, cfg.pools[k].id) == Some(k)
    ensures PostCallable(cfg, cfg.pools[k].id, PayloadAddr(cfg, cfg.pools[k], i), bytes)
    ensures var e, id, addr := cfg.pools[k].base + i, cfg.pools[k].id, PayloadAddr(cfg, cfg.pools[k], i);
            PostStep(cfg, s, id, addr, bytes) ==
            if QueueFull(s.p) then s else Ledger(s, id, PostElement(s.p, id, k, e))
  {
    ElementAddr(cfg, k, i);
  }

  /** Posting a pointer to element i of its pool, in every case: behind a full queue nothing
      happens; the pump takes the element if a client holds it, and also if it is the one being
      shown to the callbacks and has no locks; otherwise it marks it free, whoever has it. */
  lemma ElementPost(cfg: Config, s: Sys, k: nat, i: nat, bytes: seq<byte>)
    requires Inv(cfg, s) && k < |cfg.pools| && i < cfg.pools[k].amount
    ensures cfg.pools[k].base + i < cfg.elements && Lookup(cfg, cfg.pools[k].id) == Some(k)
    ensures PostCallable(cfg, cfg.pools[k].id, PayloadAddr(cfg, cfg.pools[k], i), bytes)
    ensures var e, id, addr := cfg.pools[k].base + i, cfg.pools[k].id, PayloadAddr(cfg, cfg.pools[k], i);
            PostStep(cfg, s, id, addr, bytes) ==
            if QueueFull(s.p) then s
            else if s.own[e].Held? || (s.own[e] == Dispatching && s.p.pc.Calling? && s.locks[e] == 0) then
              s.(p := Enqueue(SetFlag(s.p, e, PostedNotDispatched), Entry(id, e, k)),
                 own := s.own[e := Queued], posted := s.posted + [Message(id, e, s.p.data[e])])
            else s.(p := s.p.(hdr := s.p.hdr[e := Header(MAGIC, 0, Nothing)]))
  {
    ElementPostIs(cfg, s, k, i, bytes);
    var e := cfg.pools[k].base + i;
    assert HeaderOk(s.p.hdr[e], s.own[e], s.locks[e], s.p.pc);
  }

  lemma ForcedFreeKeepsInvIff(cfg: Config, s: Sys, t: Sys, e: nat)
    requires Inv(cfg, s) && e < cfg.elements && !s.own[e].Held?
    requires t == s.(p := s.p.(hdr := s.p.hdr[e := Header(MAGIC, 0, Nothing)]))
    ensures Inv(cfg, t) <==> s.own[e] == Free
  {
    assert HeaderOk(s.p.hdr[e], s.own[e], s.locks[e], s.p.pc);
    if s.own[e] == Free {
      assert t == s;
    } else {
      assert !HeaderOk(t.p.hdr[e], t.own[e], t.locks[e], t.p.pc);
    }
  }

  /** Two live messages in one element. */
  lemma TakenTwiceBreaksInv(cfg: Config, s: Sys, t: Sys, e: nat)
    requires Inv(cfg, s) && e < cfg.elements && s.own[e] == Dispatching
    requires t.done == s.done && t.p.pc == s.p.pc
    requires |t.posted| == |s.posted| + 1 && t.posted[..|s.posted|] == s.posted && t.posted[|s.posted|].element == e
    ensures !Inv(cfg, t)
  {
    var n :| s.done <= n < |s.posted| && InFlight(s, n) && s.posted[n].element == e;
    assert t.posted[..|s.posted|][n] == t.posted[n];
    assert InFlight(t, n) && t.posted[n].element == t.posted[|s.posted|].element;
  }

  lemma HeldPostKeepsInv(cfg: Config, s: Sys, k: nat, i: nat, bytes: seq<byte>)
    requires Inv(cfg, s) && k < |cfg.pools| && i < cfg.pools[k].amount
    requires cfg.pools[k].base + i < |s.own| && s.own[cfg.pools[k].base + i].Held?
    ensures PostCallable(cfg, cfg.pools[k].id, PayloadAddr(cfg, cfg.pools[k], i), bytes)
    ensures Inv(cfg, PostStep(cfg, s, cfg.pools[k].id, PayloadAddr(cfg, cfg.pools[k], i), bytes))
  {
    ElementPost(cfg, s, k, i, bytes);
    assert InMemory(cfg, cfg.pools[k]);
    ClassifyIff(cfg, cfg.pools[k], PayloadAddr(cfg, cfg.pools[k], i), i);
    PostKeepsInv(cfg, s, s.own[cfg.pools[k].base + i].who, cfg.pools[k].id, PayloadAddr(cfg, cfg.pools[k], i), bytes);
  }

  /** Posting an element keeps the invariant exactly if the queue is full, or the element is held
      by a client or free. */
  lemma ElementPostKeepsInvIff(cfg: Config, s: Sys, k: nat, i: nat, bytes: seq<byte>)
    requires Inv(cfg, s) && k < |cfg.pools| && i < cfg.pools[k].amount
    ensures cfg.pools[k].base + i < cfg.elements
    ensures PostCallable(cfg, cfg.pools[k].id, PayloadAddr(cfg, cfg.pools[k], i), bytes)
    ensures var e := cfg.pools[k].base + i;
            Inv(cfg, PostStep(cfg, s, cfg.pools[k].id, PayloadAddr(cfg, cfg.pools[k], i), bytes)) <==>
            QueueFull(s.p) || s.own[e] == Free || s.own[e].Held?
  {
    ElementPost(cfg, s, k, i, bytes);
    var e := cfg.pools[k].base + i;
    var t := PostStep(cfg, s, cfg.pools[k].id, PayloadAddr(cfg, cfg.pools[k], i), bytes);
    if !QueueFull(s.p) {
      if s.own[e].Held? {
        HeldPostKeepsInv(cfg, s, k, i, bytes);
      } else if s.own[e] == Dispatching && s.p.pc.Calling? && s.locks[e] == 0 {
        TakenTwiceBreaksInv(cfg, s, t, e);
      } else {
        ForcedFreeKeepsInvIff(cfg, s, t, e);
      }
    }
  }

  /** A message that still waits in the queue is not taken again; unless the queue is full, its
      element is marked free although the queue goes on referring to it. */
  lemma RepostForcesFree(cfg: Config, s: Sys, k: nat, i: nat, n: nat, bytes: seq<byte>)
    requires Inv(cfg, s) && k < |cfg.pools| && i < cfg.pools[k].amount
    requires InFlight(s, n) && FlightOwner(s, n) == Queued && s.posted[n].element == cfg.pools[k].base + i
    ensures PostCallable(cfg, cfg.pools[k].id, PayloadAddr(cfg, cfg.pools[k], i), bytes)
    ensures var t := PostStep(cfg, s, cfg.pools[k].id, PayloadAddr(cfg, cfg.pools[k], i), bytes);
            var e := s.posted[n].element;
            && t.posted == s.posted && t.p.queue == s.p.queue && t.p.queue[Slot(n)].buffer == e && e < |t.p.hdr|
            && (if QueueFull(s.p) then t == s else IsFree(t.p.hdr[e]) && !Inv(cfg, t))
  {
    ElementPostIs(cfg, s, k, i, bytes);
    var e, t := s.posted[n].element, PostStep(cfg, s, cfg.pools[k].id, PayloadAddr(cfg, cfg.pools[k], i), bytes);
    assert s.own[e] == Queued && s.p.queue[Slot(n)].buffer == e by { QueuedFacts(cfg, s, n); }
    RefusedRepost(cfg, s, t, cfg.pools[k].id, k, e);
  }

  lemma RefusedRepost(cfg: Config, s: Sys, t: Sys, id: int, k: nat, e: nat)
    requires Inv(cfg, s) && e < cfg.elements && s.own[e] == Queued
    requires t == if QueueFull(s.p) then s else Ledger(s, id, PostElement(s.p, id, k, e))
    ensures QueueFull(s.p) ==> t == s
    ensures t.posted == s.posted && t.p.queue == s.p.queue && e < |t.p.hdr|
    ensures !QueueFull(s.p) ==> IsFree(t.p.hdr[e]) && !Inv(cfg, t)
  {
    assert HeaderOk(s.p.hdr[e], s.own[e], s.locks[e], s.p.pc);
    if !QueueFull(s.p) {
      ForcedFreeKeepsInvIff(cfg, s, t, e);
    }
  }

  lemma QueuedFacts(cfg: Config, s: Sys, n: nat)
    requires Inv(cfg, s) && InFlight(s, n) && FlightOwner(s, n) == Queued
    ensures s.posted[n].element < cfg.elements && s.own[s.posted[n].element] == Queued
    ensures s.p.queue[Slot(n)].buffer == s.posted[n].element
  {
    assert FlightOk(s, n);
    assert EntryOk(cfg, s.p.queue[Slot(n)], s.posted[n]);
  }

  /** The looks at the remaining receiver slots change nothing but the record of them. */
  lemma {:induction false} LooksChangeNoBits(cfg: Config, s: Sys)
    requires SysShape(cfg, s) && s.p.pc.Calling? && s.p.pc.slot <= RECEIVERS
    ensures var u := DispatchSteps(cfg, s, RECEIVERS - s.p.pc.slot);
            u == s.(p := s.p.(pc := Calling(RECEIVERS)), visits := u.visits)
    decreases RECEIVERS - s.p.pc.slot
  {
    if s.p.pc.slot < RECEIVERS {
      DispatchKeepsShape(cfg, s);
      LooksChangeNoBits(cfg, DispatchStep(cfg, s));
    }
  }

  /** How a round ends for an element with one reference: it is free, whatever else refers to it. */
  lemma RoundEndFrees(cfg: Config, s: Sys, e: nat)
    requires SysShape(cfg, s) && s.p.pc == Calling(RECEIVERS) && FrontEntry(s.p).buffer == e
    requires s.p.hdr[e].magic == MAGIC && s.p.hdr[e].refCnt == 1 && s.locks[e] == 0
    ensures var u := DispatchEnd(cfg, s);
            && e < |u.p.hdr| && IsFree(u.p.hdr[e]) && u.p.pc == Idle && u.done == s.done + 1
            && u.posted == s.posted && u.p.queue == s.p.queue && u.own == s.own[e := Free]
  {
  }

  lemma FreeInFlightBreaksInv(cfg: Config, u: Sys, n: nat)
    requires u.done <= n < |u.posted| && u.p.pc == Idle
    requires u.posted[n].element < |u.own| && u.own[u.posted[n].element] == Free
    ensures !Inv(cfg, u)
  {
    assert InFlight(u, n);
    assert !FlightOk(u, n);
  }

  /** A callback that posts the very element it is being shown succeeds, if no one has locked it
      and the queue is not full; but when the dispatcher ends its round the element is free, while
      the queue still holds the second message in it. */
  lemma RepostFromCallback(cfg: Config, s: Sys, k: nat, i: nat, bytes: seq<byte>)
    requires Inv(cfg, s) && k < |cfg.pools| && i < cfg.pools[k].amount
    requires cfg.pools[k].base + i < cfg.elements && s.own[cfg.pools[k].base + i] == Dispatching
    requires s.p.pc.Calling? && s.locks[cfg.pools[k].base + i] == 0 && !QueueFull(s.p)
    ensures PostCallable(cfg, cfg.pools[k].id, PayloadAddr(cfg, cfg.pools[k], i), bytes)
    ensures var t := PostStep(cfg, s, cfg.pools[k].id, PayloadAddr(cfg, cfg.pools[k], i), bytes);
            var e := cfg.pools[k].base + i;
            && SysShape(cfg, t) && s.p.pc.slot <= RECEIVERS
            && t.posted == s.posted + [Message(cfg.pools[k].id, e, s.p.data[e])]
            && var u := DispatchEnd(cfg, DispatchSteps(cfg, t, RECEIVERS - s.p.pc.slot));
               && u.posted == t.posted && u.done == s.done + 1 <= |s.posted|
               && IsFree(u.p.hdr[e]) && u.p.queue[Slot(|s.posted|)].buffer == e
               && !Inv(cfg, u)
  {
    ElementPost(cfg, s, k, i, bytes);
    var id, addr := cfg.pools[k].id, PayloadAddr(cfg, cfg.pools[k], i);
    ApplyKeepsShape(cfg, s, PostMessage(0, id, addr, bytes));
    TakenRepost(cfg, s, PostStep(cfg, s, id, addr, bytes), id, k, cfg.pools[k].base + i);
  }

  lemma TakenRepost(cfg: Config, s: Sys, t: Sys, id: int, k: nat, e: nat)
    requires Inv(cfg, s) && SysShape(cfg, t) && e < cfg.elements && s.own[e] == Dispatching
    requires s.p.pc.Calling? && s.locks[e] == 0 && !QueueFull(s.p)
    requires t == s.(p := Enqueue(SetFlag(s.p, e, PostedNotDispatched), Entry(id, e, k)),
                     own := s.own[e := Queued], posted := s.posted + [Message(id, e, s.p.data[e])])
    ensures s.p.pc.slot <= RECEIVERS
    ensures var u := DispatchEnd(cfg, DispatchSteps(cfg, t, RECEIVERS - s.p.pc.slot));
            && u.posted == t.posted && u.done == s.done + 1 <= |s.posted|
            && e < |u.p.hdr| && IsFree(u.p.hdr[e]) && u.p.queue[Slot(|s.posted|)].buffer == e
            && !Inv(cfg, u)
  {
    TakenFacts(cfg, s, t, id, k, e);
    TakenRound(cfg, t, e, |s.posted|);
  }

  lemma TakenRound(cfg: Config, t: Sys, e: nat, n: nat)
    requires SysShape(cfg, t) && t.p.pc.Calling? && t.p.pc.slot <= RECEIVERS && FrontEntry(t.p).buffer == e
    requires t.p.hdr[e].magic == MAGIC && t.p.hdr[e].refCnt == 1 && t.locks[e] == 0
    requires t.done < n < |t.posted| && t.posted[n].element == e && t.p.queue[Slot(n)].buffer == e
    ensures var u := DispatchEnd(cfg, DispatchSteps(cfg, t, RECEIVERS - t.p.pc.slot));
            && u.posted == t.posted && u.done == t.done + 1
            && e < |u.p.hdr| && IsFree(u.p.hdr[e]) && u.p.queue[Slot(n)].buffer == e
            && !Inv(cfg, u)
  {
    RestOfRound(cfg, t, e);
    FreeInFlightBreaksInv(cfg, DispatchEnd(cfg, DispatchSteps(cfg, t, RECEIVERS - t.p.pc.slot)), n);
  }

  lemma EntryStays(queue: seq<Entry>, tail: nat, entry: Entry, n: nat)
    requires |queue| == QUEUE_MAX && tail == Slot(n) && queue[tail] == entry
    ensures queue[Slot(n)].buffer == entry.buffer
  {
  }

  lemma TakenFacts(cfg: Config, s: Sys, t: Sys, id: int, k: nat, e: nat)
    requires Inv(cfg, s) && e < cfg.elements && s.own[e] == Dispatching
    requires s.p.pc.Calling? && s.locks[e] == 0 && !QueueFull(s.p)
    requires t == s.(p := Enqueue(SetFlag(s.p, e, PostedNotDispatched), Entry(id, e, k)),
                     own := s.own[e := Queued], posted := s.posted + [Message(id, e, s.p.data[e])])
    ensures t.p.pc == s.p.pc && s.p.pc.slot <= RECEIVERS && s.done < |s.posted| && t.done == s.done
    ensures FrontEntry(t.p).buffer == e && e < |t.p.hdr| && e < |t.locks| && t.locks[e] == 0
    ensures t.p.hdr[e].magic == MAGIC && t.p.hdr[e].refCnt == 1
    ensures |t.p.queue| == QUEUE_MAX && t.p.queue[Slot(|s.posted|)].buffer == e
    ensures |t.posted| == |s.posted| + 1 && t.posted[|s.posted|].element == e && e < |t.own|
  {
    RepostFacts(cfg, s, e);
    assert HeaderOk(s.p.hdr[e], s.own[e], s.locks[e], s.p.pc);
    EntryStays(t.p.queue, s.p.tail, Entry(id, e, k), |s.posted|);
  }

  lemma RestOfRound(cfg: Config, t: Sys, e: nat)
    requires SysShape(cfg, t) && t.p.pc.Calling? && t.p.pc.slot <= RECEIVERS && FrontEntry(t.p).buffer == e
    requires t.p.hdr[e].magic == MAGIC && t.p.hdr[e].refCnt == 1 && t.locks[e] == 0
    ensures var u := DispatchEnd(cfg, DispatchSteps(cfg, t, RECEIVERS - t.p.pc.slot));
            && e < |u.p.hdr| && IsFree(u.p.hdr[e]) && u.p.pc == Idle && u.done == t.done + 1
            && u.posted == t.posted && u.p.queue == t.p.queue && u.own == t.own[e := Free]
  {
    LooksChangeNoBits(cfg, t);
    RoundEndFrees(cfg, DispatchSteps(cfg, t, RECEIVERS - t.p.pc.slot), e);
  }

  lemma RepostFacts(cfg: Config, s: Sys, e: nat)
    requires Inv(cfg, s) && e < cfg.elements && s.own[e] == Dispatching && !QueueFull(s.p)
    ensures s.done < |s.posted| && FrontEntry(s.p).buffer == e && s.p.front != s.p.tail
    ensures s.p.pc.Calling? ==> s.p.pc.slot <= RECEIVERS
    ensures s.p.tail == Slot(|s.posted|)
  {
    var n :| s.done <= n < |s.posted| && InFlight(s, n) && s.posted[n].element == e;
    FrontIsNext(cfg, s);
  }

  // ---- Exactly which steps keep the invariant ----

  /** The steps that do no harm, disciplined or not. */
  ghost predicate Harmless(cfg: Config, s: Sys, ev: Event)
    requires WellFormed(cfg) && SysShape(cfg, s) && Callable(cfg, s, ev)
  {
    match ev
    case Fill(_, e, bytes) => !Flying(s.own[e]) || bytes == s.p.data[e]
    case PostMessage(_, id, addr, bytes) => HarmlessPost(cfg, s, id, addr, bytes)
    case LockMessage(e) => s.own[e] != Free && !s.own[e].Held?
    case UnlockMessage(e) => s.locks[e] > 0 || s.own[e] == Free
    case _ => true
  }

  ghost predicate HarmlessPost(cfg: Config, s: Sys, id: int, addr: int, bytes: seq<byte>)
    requires WellFormed(cfg) && SysShape(cfg, s) && PostCallable(cfg, id, addr, bytes)
  {
    id >= LAST_ID || QueueFull(s.p) ||
    (var pool := cfg.pools[Lookup(cfg, id).value];
     match Classify(cfg, pool, addr)
     case Element(i) => pool.base + i < cfg.elements && (s.own[pool.base + i] == Free || s.own[pool.base + i].Held?)
     case _ => true)
  }

  lemma FillKeepsInvIff(cfg: Config, s: Sys, who: nat, e: nat, bytes: seq<byte>)
    requires Inv(cfg, s) && Callable(cfg, s, Fill(who, e, bytes))
    ensures Inv(cfg, Apply(cfg, s, Fill(who, e, bytes))) <==> !Flying(s.own[e]) || bytes == s.p.data[e]
  {
    var t := Apply(cfg, s, Fill(who, e, bytes));
    ApplyKeepsShape(cfg, s, Fill(who, e, bytes));
    if !Flying(s.own[e]) {
      LocalKeepsInv(cfg, s, t);
    } else if bytes == s.p.data[e] {
      assert t == s;
    } else {
      var n :| s.done <= n < |s.posted| && InFlight(s, n) && s.posted[n].element == e;
      assert FlightOk(s, n) && InFlight(t, n);
      assert !FlightOk(t, n);
    }
  }

  lemma LockKeepsInvIff(cfg: Config, s: Sys, e: nat)
    requires Inv(cfg, s) && e < cfg.elements
    ensures Inv(cfg, LockStep(cfg, s, e)) <==> s.own[e] != Free && !s.own[e].Held?
  {
    assert HeaderOk(s.p.hdr[e], s.own[e], s.locks[e], s.p.pc);
    var t := LockStep(cfg, s, e);
    if s.own[e] == Free || s.own[e].Held? {
      assert !HeaderOk(t.p.hdr[e], t.own[e], t.locks[e], t.p.pc);
    } else {
      LockKeepsInv(cfg, s, e);
    }
  }

  lemma UnlockKeepsInvIff(cfg: Config, s: Sys, e: nat)
    requires Inv(cfg, s) && e < cfg.elements
    ensures Inv(cfg, UnlockStep(cfg, s, e)) <==> s.locks[e] > 0 || s.own[e] == Free
  {
    assert HeaderOk(s.p.hdr[e], s.own[e], s.locks[e], s.p.pc);
    var t := UnlockStep(cfg, s, e);
    if s.locks[e] > 0 {
      UnlockKeepsInv(cfg, s, e);
    } else if s.own[e] == Free {
      assert t == s;
    } else {
      assert !HeaderOk(t.p.hdr[e], t.own[e], t.locks[e], t.p.pc);
    }
  }

  lemma InsidePostKeepsInvIff(cfg: Config, s: Sys, k: nat, id: int, addr: int, i: nat, bytes: seq<byte>)
    requires Inv(cfg, s) && PostCallable(cfg, id, addr, bytes) && id < LAST_ID && Lookup(cfg, id) == Some(k)
    requires Classify(cfg, cfg.pools[k], addr) == Element(i)
    ensures cfg.pools[k].base + i < cfg.elements
    ensures var e := cfg.pools[k].base + i;
            Inv(cfg, PostStep(cfg, s, id, addr, bytes)) <==> QueueFull(s.p) || s.own[e] == Free || s.own[e].Held?
  {
    assert PoolOk(cfg, cfg.pools[k]) && InMemory(cfg, cfg.pools[k]);
    ClassifyIff(cfg, cfg.pools[k], addr, i);
    ElementPostKeepsInvIff(cfg, s, k, i, bytes);
  }

  lemma OtherPostKeepsInv(cfg: Config, s: Sys, who: nat, id: int, addr: int, bytes: seq<byte>)
    requires Inv(cfg, s) && PostCallable(cfg, id, addr, bytes)
    requires id < LAST_ID ==> !Classify(cfg, cfg.pools[Lookup(cfg, id).value], addr).Element?
    ensures HarmlessPost(cfg, s, id, addr, bytes) && Inv(cfg, PostStep(cfg, s, id, addr, bytes))
  {
    PostKeepsInv(cfg, s, who, id, addr, bytes);
  }

  predicate ToElement(cfg: Config, id: int, addr: int)
    requires cfg.overhead > 0 && (id < LAST_ID ==> Lookup(cfg, id).Some?)
  {
    id < LAST_ID && Classify(cfg, cfg.pools[Lookup(cfg, id).value], addr).Element?
  }

  lemma ElementPostIff(cfg: Config, s: Sys, id: int, addr: int, bytes: seq<byte>)
    requires Inv(cfg, s) && PostCallable(cfg, id, addr, bytes) && ToElement(cfg, id, addr)
    ensures Inv(cfg, PostStep(cfg, s, id, addr, bytes)) <==> HarmlessPost(cfg, s, id, addr, bytes)
  {
    var k := Lookup(cfg, id).value;
    InsidePostKeepsInvIff(cfg, s, k, id, addr, Classify(cfg, cfg.pools[k], addr).i, bytes);
  }

  lemma PostKeepsInvIff(cfg: Config, s: Sys, who: nat, id: int, addr: int, bytes: seq<byte>)
    requires Inv(cfg, s) && PostCallable(cfg, id, addr, bytes)
    ensures Inv(cfg, PostStep(cfg, s, id, addr, bytes)) <==> HarmlessPost(cfg, s, id, addr, bytes)
  {
    if ToElement(cfg, id, addr) {
      ElementPostIff(cfg, s, id, addr, bytes);
    } else {
      OtherPostKeepsInv(cfg, s, who, id, addr, bytes);
    }
  }

  /** The invariant is kept by exactly the harmless steps of anyone: no fill of a message in
      flight, no post of an element in flight or retained unless the queue is full, no lock on an
      element that is free or being filled, and no unlock without a lock. */
  lemma KeepsInvIff(cfg: Config, s: Sys, ev: Event)
    requires Inv(cfg, s) && Callable(cfg, s, ev)
    ensures Inv(cfg, Apply(cfg, s, ev)) <==> Harmless(cfg, s, ev)
  {
    match ev
    case Fill(who, e, bytes) => FillKeepsInvIff(cfg, s, who, e, bytes);
    case PostMessage(who, id, addr, bytes) => PostKeepsInvIff(cfg, s, who, id, addr, bytes);
    case LockMessage(e) => LockKeepsInvIff(cfg, s, e);
    case UnlockMessage(e) => UnlockKeepsInvIff(cfg, s, e);
    case _ => StepKeepsInv(cfg, s, ev);
  }

  lemma DisciplinedIsHarmless(cfg: Config, s: Sys, ev: Event)
    requires Inv(cfg, s) && Disciplined(cfg, s, ev)
    ensures Harmless(cfg, s, ev)
  {
  }

  // ---- Receiver slots ----

  /** Register a, register b, unregister a, register b: then b has two slots. */
  lemma RegisterTwice(a: Callback, b: Callback)
    requires a != NO_CALLBACK && b != NO_CALLBACK && a != b
    ensures var slots := Registered(Unregistered(Registered(Registered(NO_RECEIVERS, a), b), a), b);
            slots == [b, b, NO_CALLBACK, NO_CALLBACK] && !NoDuplicates(slots)
  {
    var one := Registered(NO_RECEIVERS, a);
    assert one == [a, NO_CALLBACK, NO_CALLBACK, NO_CALLBACK];
    var two := Registered(one, b);
    assert RegisterSlot(one, b, 0) == Some(1);
    assert two == [a, b, NO_CALLBACK, NO_CALLBACK];
    var hole := Unregistered(two, a);
    assert hole == [NO_CALLBACK, b, NO_CALLBACK, NO_CALLBACK];
    var slots := Registered(hole, b);
    assert slots[0] == slots[1] == b;
  }

  predicate NoDuplicates(slots: seq<Callback>) {
    forall i, j :: 0 <= i < j < |slots| && slots[i] == slots[j] ==> slots[i] == NO_CALLBACK
  }

  /** No empty slot before a used one. */
  predicate Packed(slots: seq<Callback>) {
    forall i, j :: 0 <= i < j < |slots| && slots[i] == NO_CALLBACK ==> slots[j] == NO_CALLBACK
  }

  /** Registering again registers twice exactly when an earlier slot has been emptied. */
  lemma RegisterDuplicatesIff(slots: seq<Callback>, cb: Callback)
    requires cb != NO_CALLBACK && NoDuplicates(slots)
    ensures NoDuplicates(Registered(slots, cb)) <==>
            !exists i, j :: 0 <= i < j < |slots| && slots[i] == NO_CALLBACK && slots[j] == cb
  {
    var t := Registered(slots, cb);
    var r := RegisterSlot(slots, cb, 0);
    if r.Some? && exists j :: r.value < j < |slots| && slots[j] == cb {
      var j :| r.value < j < |slots| && slots[j] == cb;
      assert slots[r.value] == NO_CALLBACK;
      assert t[r.value] == t[j] == cb;
    }
  }

  /** So histories of registrations alone keep every callback in one slot. */
  lemma RegisterKeepsPacked(slots: seq<Callback>, cb: Callback)
    requires cb != NO_CALLBACK && NoDuplicates(slots) && Packed(slots)
    ensures NoDuplicates(Registered(slots, cb)) && Packed(Registered(slots, cb))
    ensures cb in Registered(slots, cb) <==> cb in slots || NO_CALLBACK in slots
    ensures forall c :: c in slots && c != NO_CALLBACK ==> c in Registered(slots, cb)
  {
    var t := Registered(slots, cb);
    var r := RegisterSlot(slots, cb, 0);
    if r.Some? {
      assert t[r.value] == cb;
      forall c | c in slots && c != NO_CALLBACK
        ensures c in t
      {
        var j :| 0 <= j < |slots| && slots[j] == c;
        assert t[j] == c || c == cb;
      }
    }
  }

  /** Where every callback has at most one slot, removing one removes it and no other. */
  lemma UnregisterRemoves(slots: seq<Callback>, cb: Callback)
    requires cb != NO_CALLBACK && NoDuplicates(slots)
    ensures var t := Unregistered(slots, cb);
            && |t| == |slots| && NoDuplicates(t)
            && forall j :: 0 <= j < |slots| ==> t[j] == if slots[j] == cb then NO_CALLBACK else slots[j]
  {
    var r := FirstIndex(slots, cb, 0);
    if r.Some? {
      forall j | 0 <= j < |slots| && j != r.value
        ensures slots[j] != cb
      {
        assert slots[r.value] == cb;
      }
    }
  }
}
