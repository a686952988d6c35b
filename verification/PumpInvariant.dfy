/** What every run of disciplined clients keeps: who owns which element, what the queue means,
    and what the callbacks get to see. */
module PumpInvariant {
  import opened Bytes
  import opened Options
  import opened PumpModel

  // ---- The invariant ----

  /** The header bits that belong to an owner and a number of outstanding locks. */
  predicate HeaderOk(h: Header, o: Owner, locks: nat, pc: Pc) {
    && h.magic == MAGIC
    && match o
       case Free => h.refCnt == 0 && h.flags == Nothing && locks == 0
       case Held(_) => h.refCnt == 1 && h.flags == InUse && locks == 0
       case Queued => h.refCnt == 1 + locks && h.flags == PostedNotDispatched
       case Dispatching =>
         h.refCnt == 1 + locks && h.flags == (if pc == Ended then Nothing else InUse) &&
         (pc.Calling? || pc.Ended?)
       case Retained => h.refCnt == locks && locks > 0 && h.flags == Nothing
  }

  ghost predicate HeadersOk(s: Sys)
    requires |s.p.hdr| == |s.own| == |s.locks|
  {
    forall e :: 0 <= e < |s.own| ==> HeaderOk(s.p.hdr[e], s.own[e], s.locks[e], s.p.pc)
  }

  /** The ring slot of message number n: n modulo N, counted up step by step. */
  function Slot(n: nat): (k: nat)
    ensures k < QUEUE_MAX
  {
    if n == 0 then 0 else if Slot(n - 1) + 1 == QUEUE_MAX then 0 else Slot(n - 1) + 1
  }

  /** Ring order: message number n lies in slot n mod N, and the live slots are those of the
      messages posted and not yet done. */
  predicate RingOk(s: Sys) {
    && s.done <= |s.posted| <= s.done + QUEUE_MAX
    && s.p.front == Slot(s.done)
    && s.p.tail == Slot(|s.posted|)
    && s.p.size == |s.posted| - s.done
    && (s.p.pc != Idle ==> s.p.size > 0)
    && (s.p.pc.Calling? ==> s.p.pc.slot <= RECEIVERS)
  }

  ghost predicate EntryOk(cfg: Config, en: Entry, m: Message)
    requires WellFormed(cfg)
  {
    && en.id == m.id && en.buffer == m.element
    && Lookup(cfg, m.id) == Some(en.pool)
    && en.pool < |cfg.pools|
    && cfg.pools[en.pool].base <= m.element < cfg.pools[en.pool].base + cfg.pools[en.pool].amount
    && m.element < cfg.elements
  }

  ghost predicate QueueMeans(cfg: Config, s: Sys)
    requires WellFormed(cfg) && |s.p.queue| == QUEUE_MAX
  {
    forall n :: s.done <= n < |s.posted| ==> EntryOk(cfg, s.p.queue[Slot(n)], s.posted[n])
  }

  /** Message n is posted and its element not yet given back. */
  predicate InFlight(s: Sys, n: nat) {
    s.done <= n < |s.posted| && !(n == s.done && s.p.pc == Released)
  }

  function FlightOwner(s: Sys, n: nat): Owner {
    if n == s.done && s.p.pc != Idle then Dispatching else Queued
  }

  /** An element in flight is owned by the queue or the dispatcher and holds its message. */
  predicate FlightOk(s: Sys, n: nat)
    requires n < |s.posted|
  {
    var m := s.posted[n];
    m.element < |s.own| && m.element < |s.p.data| &&
    s.own[m.element] == FlightOwner(s, n) && s.p.data[m.element] == m.bytes
  }

  ghost predicate FlightsOk(s: Sys) {
    forall n :: s.done <= n < |s.posted| && InFlight(s, n) ==> FlightOk(s, n)
  }

  ghost predicate FlightsDistinct(s: Sys) {
    forall n, m :: s.done <= n < m < |s.posted| && InFlight(s, n) ==>
      s.posted[n].element != s.posted[m].element
  }

  /** Nothing else is owned by the queue or the dispatcher. */
  ghost predicate OnlyFlights(s: Sys) {
    forall e :: 0 <= e < |s.own| && s.own[e] in {Queued, Dispatching} ==>
      exists n :: s.done <= n < |s.posted| && InFlight(s, n) && s.posted[n].element == e
  }

  function VisitsDue(s: Sys): nat {
    RECEIVERS * s.done +
    match s.p.pc
    case Idle => 0
    case Calling(i) => i
    case _ => RECEIVERS
  }

  /** The looks at receiver slots, in order: all slots of message 0, all of message 1, ...,
      every one of them with the message as it was posted. */
  ghost predicate VisitsOk(s: Sys) {
    && |s.visits| == VisitsDue(s)
    && forall n: nat, i: nat :: i < RECEIVERS && RECEIVERS * n + i < |s.visits| ==> VisitOk(s, n, i)
  }

  /** The look at slot i for message n. */
  predicate VisitOk(s: Sys, n: nat, i: nat)
    requires RECEIVERS * n + i < |s.visits|
  {
    var v := s.visits[RECEIVERS * n + i];
    n < |s.posted| && v.slot == i && v.id == s.posted[n].id && v.bytes == s.posted[n].bytes
  }

  ghost predicate Inv(cfg: Config, s: Sys) {
    && WellFormed(cfg)
    && SysShape(cfg, s)
    && HeadersOk(s)
    && RingOk(s)
    && QueueMeans(cfg, s)
    && FlightsOk(s)
    && FlightsDistinct(s)
    && OnlyFlights(s)
    && VisitsOk(s)
  }

  // ---- The discipline of the clients ----

  /** A client fills and posts only elements that it holds, locks only elements whose message
      is alive, and returns only locks that it took. */
  ghost predicate Disciplined(cfg: Config, s: Sys, ev: Event)
    requires WellFormed(cfg) && SysShape(cfg, s)
  {
    && Callable(cfg, s, ev)
    && match ev
       case Fill(who, e, _) => s.own[e] == Held(who)
       case PostMessage(who, id, addr, _) =>
         id < LAST_ID ==>
           (var pool := cfg.pools[Lookup(cfg, id).value];
            match Classify(cfg, pool, addr)
            case Element(i) => pool.base + i < cfg.elements && s.own[pool.base + i] == Held(who)
            case _ => true)
       case LockMessage(e) => s.own[e] in {Queued, Dispatching, Retained}
       case UnlockMessage(e) => s.locks[e] > 0
       case _ => true
  }

  // ---- Preservation, one kind of step at a time ----

  predicate Flying(o: Owner) {
    o == Queued || o == Dispatching
  }

  /** A step that leaves the queue, the dispatcher and everything in flight alone. */
  ghost predicate Local(s: Sys, s': Sys) {
    && s'.p.queue == s.p.queue && s'.p.front == s.p.front && s'.p.tail == s.p.tail
    && s'.p.size == s.p.size && s'.p.pc == s.p.pc
    && s'.posted == s.posted && s'.done == s.done && s'.visits == s.visits
    && |s'.own| == |s.own| && |s'.p.data| == |s.p.data|
    && (forall e :: 0 <= e < |s.own| && (Flying(s.own[e]) || Flying(s'.own[e])) ==> s'.own[e] == s.own[e])
    && (forall e :: 0 <= e < |s.own| && e < |s.p.data| && Flying(s.own[e]) ==> s'.p.data[e] == s.p.data[e])
  }

  lemma LocalKeepsFlights(s: Sys, s': Sys)
    requires Local(s, s') && FlightsOk(s) && FlightsDistinct(s) && OnlyFlights(s)
    ensures FlightsOk(s') && FlightsDistinct(s') && OnlyFlights(s')
  {
    forall n | s'.done <= n < |s'.posted| && InFlight(s', n)
      ensures FlightOk(s', n)
    {
      assert InFlight(s, n) && FlightOk(s, n);
    }
    forall n, m | s'.done <= n < m < |s'.posted| && InFlight(s', n)
      ensures s'.posted[n].element != s'.posted[m].element
    {
      assert InFlight(s, n);
    }
    forall e | 0 <= e < |s'.own| && s'.own[e] in {Queued, Dispatching}
      ensures exists n :: s'.done <= n < |s'.posted| && InFlight(s', n) && s'.posted[n].element == e
    {
      assert Flying(s'.own[e]);
      var n :| s.done <= n < |s.posted| && InFlight(s, n) && s.posted[n].element == e;
      assert InFlight(s', n);
    }
  }

  lemma LocalKeepsInv(cfg: Config, s: Sys, s': Sys)
    requires Inv(cfg, s) && SysShape(cfg, s') && Local(s, s') && HeadersOk(s')
    ensures Inv(cfg, s')
  {
    LocalKeepsFlights(s, s');
    PostedKeepsVisits(s, s');
  }

  lemma GetFreeKeepsInv(cfg: Config, s: Sys, who: nat, id: int)
    requires Inv(cfg, s)
    ensures Inv(cfg, GetFreeStep(cfg, s, who, id))
  {
    var e := Acquirable(cfg, s.p, id);
    if e.Some? {
      var s' := GetFreeStep(cfg, s, who, id);
      ApplyKeepsShape(cfg, s, GetFree(who, id));
      assert HeaderOk(s.p.hdr[e.value], s.own[e.value], s.locks[e.value], s.p.pc);
      assert s.own[e.value] == Free;
      LocalKeepsInv(cfg, s, s');
    }
  }

  lemma FillKeepsInv(cfg: Config, s: Sys, who: nat, e: nat, bytes: seq<byte>)
    requires Inv(cfg, s) && Disciplined(cfg, s, Fill(who, e, bytes))
    ensures Inv(cfg, Apply(cfg, s, Fill(who, e, bytes)))
  {
    ApplyKeepsShape(cfg, s, Fill(who, e, bytes));
    LocalKeepsInv(cfg, s, Apply(cfg, s, Fill(who, e, bytes)));
  }

  lemma LockKeepsInv(cfg: Config, s: Sys, e: nat)
    requires Inv(cfg, s) && Disciplined(cfg, s, LockMessage(e))
    ensures Inv(cfg, LockStep(cfg, s, e))
  {
    ApplyKeepsShape(cfg, s, LockMessage(e));
    assert HeaderOk(s.p.hdr[e], s.own[e], s.locks[e], s.p.pc);
    LocalKeepsInv(cfg, s, LockStep(cfg, s, e));
  }

  lemma UnlockKeepsHeaders(cfg: Config, s: Sys, e: nat)
    requires SysShape(cfg, s) && HeadersOk(s) && e < cfg.elements && s.locks[e] > 0
    ensures HeadersOk(UnlockStep(cfg, s, e)) && Local(s, UnlockStep(cfg, s, e))
  {
    assert HeaderOk(s.p.hdr[e], s.own[e], s.locks[e], s.p.pc);
  }

  lemma UnlockKeepsInv(cfg: Config, s: Sys, e: nat)
    requires Inv(cfg, s) && Disciplined(cfg, s, UnlockMessage(e))
    ensures Inv(cfg, UnlockStep(cfg, s, e))
  {
    ApplyKeepsShape(cfg, s, UnlockMessage(e));
    UnlockKeepsHeaders(cfg, s, e);
    LocalKeepsInv(cfg, s, UnlockStep(cfg, s, e));
  }

  lemma RegistrationKeepsInv(cfg: Config, s: Sys, ev: Event)
    requires Inv(cfg, s) && Disciplined(cfg, s, ev) && (ev.RegisterOn? || ev.UnregisterFrom?)
    ensures Inv(cfg, Apply(cfg, s, ev))
  {
    ApplyKeepsShape(cfg, s, ev);
    LocalKeepsInv(cfg, s, Apply(cfg, s, ev));
  }

  // ---- Posting ----

  /** The ledger behind a successful post: element `e`, free or held before, enters the queue. */
  ghost predicate Enters(s: Sys, s': Sys, id: int, e: nat, k: nat) {
    && |s.posted| - s.done < QUEUE_MAX
    && e < |s.own| && !Flying(s.own[e]) && e < |s'.p.data|
    && |s'.p.data| == |s.p.data|
    && (forall j :: 0 <= j < |s.p.data| && j != e ==> s'.p.data[j] == s.p.data[j])
    && s'.own == s.own[e := Queued] && s'.locks == s.locks
    && s'.posted == s.posted + [Message(id, e, s'.p.data[e])]
    && s'.done == s.done && s'.visits == s.visits
    && s'.p.pc == s.p.pc && s'.p.front == s.p.front
    && |s.p.queue| == QUEUE_MAX && s.p.tail < QUEUE_MAX
    && s'.p.queue == s.p.queue[s.p.tail := Entry(id, e, k)]
    && s'.p.tail == (s.p.tail + 1) % QUEUE_MAX && s'.p.size == s.p.size + 1
  }

  lemma EnterKeepsFlights(s: Sys, s': Sys, id: int, e: nat, k: nat)
    requires RingOk(s) && FlightsOk(s) && FlightsDistinct(s) && OnlyFlights(s)
    requires Enters(s, s', id, e, k)
    ensures FlightsOk(s') && FlightsDistinct(s') && OnlyFlights(s')
  {
    var last := |s.posted|;
    assert InFlight(s', last) && s'.posted[last].element == e;
    forall n | s'.done <= n < |s'.posted| && InFlight(s', n)
      ensures FlightOk(s', n)
      ensures n < last ==> s'.posted[n].element != e
    {
      if n < last {
        assert InFlight(s, n) && FlightOk(s, n);
      }
    }
    forall n, m | s'.done <= n < m < |s'.posted| && InFlight(s', n)
      ensures s'.posted[n].element != s'.posted[m].element
    {
      assert InFlight(s, n);
    }
    forall e' | 0 <= e' < |s'.own| && s'.own[e'] in {Queued, Dispatching}
      ensures exists n :: s'.done <= n < |s'.posted| && InFlight(s', n) && s'.posted[n].element == e'
    {
      if e' != e {
        var n :| s.done <= n < |s.posted| && InFlight(s, n) && s.posted[n].element == e';
        assert InFlight(s', n) && s'.posted[n].element == e';
      }
    }
  }

  lemma {:induction false} SlotSpan(n: nat) returns (q: nat)
    ensures n == QUEUE_MAX * q + Slot(n)
  {
    if n == 0 {
      q := 0;
    } else {
      q := SlotSpan(n - 1);
      q := if Slot(n) == 0 then q + 1 else q;
    }
  }

  lemma SlotIsMod(n: nat)
    ensures Slot(n) == n % QUEUE_MAX
  {
    var q := SlotSpan(n);
  }

  /** Messages less than N apart lie in different slots, messages N apart in the same one. */
  lemma SlotsDiffer(n: nat, m: nat)
    requires n <= m <= n + QUEUE_MAX
    ensures Slot(n) == Slot(m) <==> m == n || m == n + QUEUE_MAX
  {
    var q := SlotSpan(n);
    var r := SlotSpan(m);
  }

  lemma NextSlot(n: nat)
    ensures (Slot(n) + 1) % QUEUE_MAX == Slot(n + 1)
  {
  }

  lemma EnterKeepsQueue(cfg: Config, s: Sys, s': Sys, id: int, e: nat, k: nat)
    requires WellFormed(cfg) && RingOk(s) && Enters(s, s', id, e, k) && QueueMeans(cfg, s)
    requires EntryOk(cfg, Entry(id, e, k), Message(id, e, s'.p.data[e]))
    ensures RingOk(s') && QueueMeans(cfg, s')
  {
    var last := |s.posted|;
    NextSlot(last);
    forall n | s'.done <= n < |s'.posted|
      ensures EntryOk(cfg, s'.p.queue[Slot(n)], s'.posted[n])
    {
      if n < last {
        SlotsDiffer(n, last);
        assert EntryOk(cfg, s.p.queue[Slot(n)], s.posted[n]);
      }
    }
  }

  lemma PostedKeepsVisits(s: Sys, s': Sys)
    requires VisitsOk(s) && s'.visits == s.visits && VisitsDue(s') == VisitsDue(s)
    requires |s.posted| <= |s'.posted| && s'.posted[..|s.posted|] == s.posted
    ensures VisitsOk(s')
  {
    forall n: nat, i: nat | i < RECEIVERS && RECEIVERS * n + i < |s'.visits|
      ensures VisitOk(s', n, i)
    {
      assert VisitOk(s, n, i);
      assert s'.posted[..|s.posted|][n] == s'.posted[n];
    }
  }

  lemma EnterKeepsInv(cfg: Config, s: Sys, s': Sys, id: int, e: nat, k: nat)
    requires Inv(cfg, s) && SysShape(cfg, s') && Enters(s, s', id, e, k) && HeadersOk(s')
    requires Lookup(cfg, id) == Some(k) && cfg.pools[k].base <= e < cfg.pools[k].base + cfg.pools[k].amount
    ensures Inv(cfg, s')
  {
    EnterKeepsFlights(s, s', id, e, k);
    EnterKeepsQueue(cfg, s, s', id, e, k);
    PostedKeepsVisits(s, s');
  }

  /** The queue is refused for fullness exactly when it holds N messages. */
  lemma FullIff(cfg: Config, s: Sys)
    requires Inv(cfg, s)
    ensures QueueFull(s.p) <==> |s.posted| - s.done == QUEUE_MAX
  {
    SlotsDiffer(s.done, |s.posted|);
  }

  lemma PostElementEnters(cfg: Config, s: Sys, who: nat, id: int, k: nat, e: nat, s': Sys)
    requires Inv(cfg, s) && e < cfg.elements && s.own[e] == Held(who)
    requires |s.posted| - s.done < QUEUE_MAX
    requires s' == Ledger(s, id, PostElement(s.p, id, k, e))
    ensures PostElement(s.p, id, k, e).element == Some(e)
    ensures Enters(s, s', id, e, k) && HeadersOk(s')
  {
    assert HeaderOk(s.p.hdr[e], s.own[e], s.locks[e], s.p.pc);
  }

  lemma PostCopyEnters(cfg: Config, s: Sys, id: int, k: nat, pool: Pool, bytes: seq<byte>, s': Sys)
    requires Inv(cfg, s) && PoolOk(cfg, pool) && |bytes| >= pool.msgSize
    requires |s.posted| - s.done < QUEUE_MAX
    requires PostCopy(s.p, id, k, pool, bytes).element.Some?
    requires s' == Ledger(s, id, PostCopy(s.p, id, k, pool, bytes))
    ensures var e := PostCopy(s.p, id, k, pool, bytes).element.value;
            Enters(s, s', id, e, k) && HeadersOk(s')
  {
    var e := PostCopy(s.p, id, k, pool, bytes).element.value;
    assert HeaderOk(s.p.hdr[e], s.own[e], s.locks[e], s.p.pc);
  }

  lemma PostElementKeepsInv(cfg: Config, s: Sys, who: nat, id: int, e: nat, s': Sys)
    requires Inv(cfg, s) && SysShape(cfg, s') && e < cfg.elements && s.own[e] == Held(who)
    requires !QueueFull(s.p) && Lookup(cfg, id).Some?
    requires var k := Lookup(cfg, id).value;
             && cfg.pools[k].base <= e < cfg.pools[k].base + cfg.pools[k].amount
             && s' == Ledger(s, id, PostElement(s.p, id, k, e))
    ensures Inv(cfg, s')
  {
    FullIff(cfg, s);
    var k := Lookup(cfg, id).value;
    PostElementEnters(cfg, s, who, id, k, e, s');
    EnterKeepsInv(cfg, s, s', id, e, k);
  }

  lemma PostCopyKeepsInv(cfg: Config, s: Sys, id: int, bytes: seq<byte>, s': Sys)
    requires Inv(cfg, s) && SysShape(cfg, s')
    requires !QueueFull(s.p) && Lookup(cfg, id).Some? && |bytes| >= cfg.pools[Lookup(cfg, id).value].msgSize
    requires PoolOk(cfg, cfg.pools[Lookup(cfg, id).value])
    requires var k := Lookup(cfg, id).value;
             s' == Ledger(s, id, PostCopy(s.p, id, k, cfg.pools[k], bytes))
    ensures Inv(cfg, s')
  {
    FullIff(cfg, s);
    var k := Lookup(cfg, id).value;
    var r := PostCopy(s.p, id, k, cfg.pools[k], bytes);
    if r.element.Some? {
      PostCopyEnters(cfg, s, id, k, cfg.pools[k], bytes, s');
      EnterKeepsInv(cfg, s, s', id, r.element.value, k);
    }
  }

  lemma OwnPostKeepsInv(cfg: Config, s: Sys, who: nat, id: int, addr: int, bytes: seq<byte>)
    requires Inv(cfg, s) && Disciplined(cfg, s, PostMessage(who, id, addr, bytes)) && id < LAST_ID
    requires !QueueFull(s.p) && Classify(cfg, cfg.pools[Lookup(cfg, id).value], addr).Element?
    requires SysShape(cfg, PostStep(cfg, s, id, addr, bytes))
    ensures Inv(cfg, PostStep(cfg, s, id, addr, bytes))
  {
    var pool := cfg.pools[Lookup(cfg, id).value];
    var i := Classify(cfg, pool, addr).i;
    assert PoolOk(cfg, pool) && InMemory(cfg, pool);
    ClassifyIff(cfg, pool, addr, i);
    PostElementKeepsInv(cfg, s, who, id, pool.base + i, PostStep(cfg, s, id, addr, bytes));
  }

  lemma ForeignPostKeepsInv(cfg: Config, s: Sys, id: int, addr: int, bytes: seq<byte>)
    requires Inv(cfg, s) && PostCallable(cfg, id, addr, bytes) && id < LAST_ID
    requires !QueueFull(s.p) && Classify(cfg, cfg.pools[Lookup(cfg, id).value], addr) == Outside
    requires SysShape(cfg, PostStep(cfg, s, id, addr, bytes))
    ensures Inv(cfg, PostStep(cfg, s, id, addr, bytes))
  {
    assert PoolOk(cfg, cfg.pools[Lookup(cfg, id).value]);
    PostCopyKeepsInv(cfg, s, id, bytes, PostStep(cfg, s, id, addr, bytes));
  }

  lemma NoPostKeepsInv(cfg: Config, s: Sys, id: int, addr: int, bytes: seq<byte>)
    requires Inv(cfg, s) && PostCallable(cfg, id, addr, bytes)
    requires QueueFull(s.p) || id >= LAST_ID || Classify(cfg, cfg.pools[Lookup(cfg, id).value], addr) == Misaligned
    ensures PostStep(cfg, s, id, addr, bytes) == s
  {
  }

  lemma PostKeepsInv(cfg: Config, s: Sys, who: nat, id: int, addr: int, bytes: seq<byte>)
    requires Inv(cfg, s) && Disciplined(cfg, s, PostMessage(who, id, addr, bytes))
    ensures Inv(cfg, PostStep(cfg, s, id, addr, bytes))
  {
    assert SysShape(cfg, PostStep(cfg, s, id, addr, bytes)) by {
      ApplyKeepsShape(cfg, s, PostMessage(who, id, addr, bytes));
    }
    if QueueFull(s.p) || id >= LAST_ID {
      NoPostKeepsInv(cfg, s, id, addr, bytes);
    } else {
      match Classify(cfg, cfg.pools[Lookup(cfg, id).value], addr)
      case Misaligned => NoPostKeepsInv(cfg, s, id, addr, bytes);
      case Element(i) => OwnPostKeepsInv(cfg, s, who, id, addr, bytes);
      case Outside => ForeignPostKeepsInv(cfg, s, id, addr, bytes);
    }
  }

  // ---- Dispatching ----

  /** The front entry is that of message number `done`, and nothing but its element is being
      dispatched. */
  lemma FrontIsNext(cfg: Config, s: Sys)
    requires Inv(cfg, s) && s.p.size > 0
    ensures s.done < |s.posted| && EntryOk(cfg, FrontEntry(s.p), s.posted[s.done])
    ensures InFlight(s, s.done) ==> FlightOk(s, s.done)
    ensures forall e :: 0 <= e < |s.own| && s.own[e] == Dispatching ==>
              e == s.posted[s.done].element && InFlight(s, s.done) && s.p.pc != Idle
  {
    assert EntryOk(cfg, s.p.queue[Slot(s.done)], s.posted[s.done]);
    forall e | 0 <= e < |s.own| && s.own[e] == Dispatching
      ensures e == s.posted[s.done].element && InFlight(s, s.done) && s.p.pc != Idle
    {
      var n :| s.done <= n < |s.posted| && InFlight(s, n) && s.posted[n].element == e;
      assert FlightOk(s, n);
    }
  }

  /** The queue part of the invariant looks at nothing that dispatching changes before the pop. */
  ghost predicate SameQueue(s: Sys, s': Sys) {
    && s'.p.queue == s.p.queue && s'.p.front == s.p.front && s'.p.tail == s.p.tail
    && s'.p.size == s.p.size && s'.posted == s.posted && s'.done == s.done
    && s'.p.data == s.p.data && |s'.own| == |s.own|
  }

  lemma FlightsStay(s: Sys, s': Sys)
    requires FlightsOk(s) && FlightsDistinct(s) && OnlyFlights(s) && SameQueue(s, s')
    requires forall n :: s.done <= n < |s.posted| ==> InFlight(s', n) == InFlight(s, n)
    requires forall e :: 0 <= e < |s.own| ==> Flying(s'.own[e]) == Flying(s.own[e])
    requires forall n :: s.done <= n < |s.posted| && InFlight(s, n) && FlightOk(s, n) ==>
               s'.own[s.posted[n].element] == FlightOwner(s', n)
    ensures FlightsOk(s') && FlightsDistinct(s') && OnlyFlights(s')
  {
    forall n | s'.done <= n < |s'.posted| && InFlight(s', n)
      ensures FlightOk(s', n)
    {
      assert InFlight(s, n) && FlightOk(s, n);
    }
    forall e | 0 <= e < |s'.own| && s'.own[e] in {Queued, Dispatching}
      ensures exists n :: s'.done <= n < |s'.posted| && InFlight(s', n) && s'.posted[n].element == e
    {
      assert Flying(s'.own[e]);
      var n :| s.done <= n < |s.posted| && InFlight(s, n) && s.posted[n].element == e;
      assert InFlight(s', n);
    }
  }

  lemma StartKeepsFlights(cfg: Config, s: Sys)
    requires Inv(cfg, s) && s.p.pc == Idle && s.p.size > 0
    ensures var s' := DispatchStep(cfg, s);
            HeadersOk(s') && FlightsOk(s') && FlightsDistinct(s') && OnlyFlights(s')
  {
    FrontIsNext(cfg, s);
    assert InFlight(s, s.done);
    FlightsStay(s, DispatchStep(cfg, s));
  }

  lemma StartKeepsInv(cfg: Config, s: Sys)
    requires Inv(cfg, s) && s.p.pc == Idle && s.p.size > 0
    ensures Inv(cfg, DispatchStep(cfg, s))
  {
    ApplyKeepsShape(cfg, s, Dispatch);
    StartKeepsFlights(cfg, s);
    PostedKeepsVisits(s, DispatchStep(cfg, s));
  }

  lemma VisitIsDue(cfg: Config, s: Sys)
    requires Inv(cfg, s) && s.p.pc.Calling? && s.p.pc.slot < RECEIVERS
    ensures VisitsOk(DispatchStep(cfg, s))
  {
    var s' := DispatchStep(cfg, s);
    FrontIsNext(cfg, s);
    assert InFlight(s, s.done);
    forall n: nat, i: nat | i < RECEIVERS && RECEIVERS * n + i < |s'.visits|
      ensures VisitOk(s', n, i)
    {
      if RECEIVERS * n + i < |s.visits| {
        assert VisitOk(s, n, i);
      } else {
        assert n == s.done && i == s.p.pc.slot;
      }
    }
  }

  lemma CallKeepsFlights(cfg: Config, s: Sys)
    requires Inv(cfg, s) && s.p.pc.Calling? && s.p.pc.slot < RECEIVERS
    ensures var s' := DispatchStep(cfg, s);
            FlightsOk(s') && FlightsDistinct(s') && OnlyFlights(s')
  {
    FlightsStay(s, DispatchStep(cfg, s));
  }

  lemma CallKeepsHeaders(cfg: Config, s: Sys)
    requires Inv(cfg, s) && s.p.pc.Calling? && s.p.pc.slot < RECEIVERS
    ensures HeadersOk(DispatchStep(cfg, s))
  {
    var s' := DispatchStep(cfg, s);
    forall e | 0 <= e < |s'.own|
      ensures HeaderOk(s'.p.hdr[e], s'.own[e], s'.locks[e], s'.p.pc)
    {
      assert HeaderOk(s.p.hdr[e], s.own[e], s.locks[e], s.p.pc);
    }
  }

  lemma CallKeepsInv(cfg: Config, s: Sys)
    requires Inv(cfg, s) && s.p.pc.Calling? && s.p.pc.slot < RECEIVERS
    ensures Inv(cfg, DispatchStep(cfg, s))
  {
    ApplyKeepsShape(cfg, s, Dispatch);
    VisitIsDue(cfg, s);
    CallKeepsHeaders(cfg, s);
    CallKeepsFlights(cfg, s);
  }

  lemma FinishKeepsFlights(cfg: Config, s: Sys)
    requires Inv(cfg, s) && s.p.pc == Calling(RECEIVERS)
    ensures var s' := DispatchStep(cfg, s);
            FlightsOk(s') && FlightsDistinct(s') && OnlyFlights(s')
  {
    FlightsStay(s, DispatchStep(cfg, s));
  }

  lemma FinishKeepsHeaders(cfg: Config, s: Sys)
    requires Inv(cfg, s) && s.p.pc == Calling(RECEIVERS)
    ensures HeadersOk(DispatchStep(cfg, s))
  {
    FrontIsNext(cfg, s);
    assert InFlight(s, s.done);
    var e := s.posted[s.done].element;
    assert HeaderOk(s.p.hdr[e], s.own[e], s.locks[e], s.p.pc);
  }

  lemma FinishKeepsInv(cfg: Config, s: Sys)
    requires Inv(cfg, s) && s.p.pc == Calling(RECEIVERS)
    ensures Inv(cfg, DispatchStep(cfg, s))
  {
    ApplyKeepsShape(cfg, s, Dispatch);
    FinishKeepsHeaders(cfg, s);
    FinishKeepsFlights(cfg, s);
    PostedKeepsVisits(s, DispatchStep(cfg, s));
  }

  lemma ReleaseKeepsHeaders(cfg: Config, s: Sys)
    requires Inv(cfg, s) && s.p.pc == Ended
    ensures HeadersOk(DispatchStep(cfg, s))
  {
    FrontIsNext(cfg, s);
    assert InFlight(s, s.done);
    var e := s.posted[s.done].element;
    assert HeaderOk(s.p.hdr[e], s.own[e], s.locks[e], s.p.pc);
  }

  lemma ReleaseKeepsFlights(cfg: Config, s: Sys)
    requires Inv(cfg, s) && s.p.pc == Ended
    ensures FlightsOk(DispatchStep(cfg, s)) && FlightsDistinct(DispatchStep(cfg, s))
  {
    var s' := DispatchStep(cfg, s);
    FrontIsNext(cfg, s);
    assert InFlight(s, s.done);
    forall n | s'.done <= n < |s'.posted| && InFlight(s', n)
      ensures FlightOk(s', n)
    {
      assert InFlight(s, n) && FlightOk(s, n);
      assert s.posted[n].element != s.posted[s.done].element;
    }
    forall n, m | s'.done <= n < m < |s'.posted| && InFlight(s', n)
      ensures s'.posted[n].element != s'.posted[m].element
    {
      assert InFlight(s, n);
    }
  }

  lemma ReleaseKeepsOnlyFlights(cfg: Config, s: Sys)
    requires Inv(cfg, s) && s.p.pc == Ended
    ensures OnlyFlights(DispatchStep(cfg, s))
  {
    var s' := DispatchStep(cfg, s);
    FrontIsNext(cfg, s);
    forall e | 0 <= e < |s'.own| && s'.own[e] in {Queued, Dispatching}
      ensures exists n :: s'.done <= n < |s'.posted| && InFlight(s', n) && s'.posted[n].element == e
    {
      assert Flying(s.own[e]);
      var n :| s.done <= n < |s.posted| && InFlight(s, n) && s.posted[n].element == e;
      assert InFlight(s', n);
    }
  }

  lemma ReleaseKeepsInv(cfg: Config, s: Sys)
    requires Inv(cfg, s) && s.p.pc == Ended
    ensures Inv(cfg, DispatchStep(cfg, s))
  {
    ApplyKeepsShape(cfg, s, Dispatch);
    FrontIsNext(cfg, s);
    ReleaseKeepsHeaders(cfg, s);
    ReleaseKeepsFlights(cfg, s);
    ReleaseKeepsOnlyFlights(cfg, s);
    PostedKeepsVisits(s, DispatchStep(cfg, s));
  }

  lemma PopKeepsFlights(cfg: Config, s: Sys)
    requires Inv(cfg, s) && s.p.pc == Released
    ensures FlightsOk(DispatchStep(cfg, s)) && FlightsDistinct(DispatchStep(cfg, s))
  {
    var s' := DispatchStep(cfg, s);
    forall n | s'.done <= n < |s'.posted| && InFlight(s', n)
      ensures FlightOk(s', n)
    {
      assert InFlight(s, n) && FlightOk(s, n);
    }
    forall n, m | s'.done <= n < m < |s'.posted| && InFlight(s', n)
      ensures s'.posted[n].element != s'.posted[m].element
    {
      assert InFlight(s, n);
    }
  }

  lemma PopKeepsOnlyFlights(cfg: Config, s: Sys)
    requires Inv(cfg, s) && s.p.pc == Released
    ensures OnlyFlights(DispatchStep(cfg, s))
  {
    var s' := DispatchStep(cfg, s);
    forall e | 0 <= e < |s'.own| && s'.own[e] in {Queued, Dispatching}
      ensures exists n :: s'.done <= n < |s'.posted| && InFlight(s', n) && s'.posted[n].element == e
    {
      var n :| s.done <= n < |s.posted| && InFlight(s, n) && s.posted[n].element == e;
      assert InFlight(s', n);
    }
  }

  lemma PopKeepsHeaders(cfg: Config, s: Sys)
    requires Inv(cfg, s) && s.p.pc == Released
    ensures HeadersOk(DispatchStep(cfg, s))
  {
    FrontIsNext(cfg, s);
    var s' := DispatchStep(cfg, s);
    forall e | 0 <= e < |s'.own|
      ensures HeaderOk(s'.p.hdr[e], s'.own[e], s'.locks[e], s'.p.pc)
    {
      assert HeaderOk(s.p.hdr[e], s.own[e], s.locks[e], s.p.pc);
    }
  }

  lemma PopKeepsRing(cfg: Config, s: Sys)
    requires Inv(cfg, s) && s.p.pc == Released
    ensures RingOk(DispatchStep(cfg, s))
  {
    NextSlot(s.done);
  }

  lemma PopKeepsQueue(cfg: Config, s: Sys)
    requires Inv(cfg, s) && s.p.pc == Released
    ensures QueueMeans(cfg, DispatchStep(cfg, s))
  {
    var s' := DispatchStep(cfg, s);
    forall n | s'.done <= n < |s'.posted|
      ensures EntryOk(cfg, s'.p.queue[Slot(n)], s'.posted[n])
    {
      assert EntryOk(cfg, s.p.queue[Slot(n)], s.posted[n]);
    }
  }

  lemma PopKeepsInv(cfg: Config, s: Sys)
    requires Inv(cfg, s) && s.p.pc == Released
    ensures Inv(cfg, DispatchStep(cfg, s))
  {
    ApplyKeepsShape(cfg, s, Dispatch);
    PopKeepsRing(cfg, s);
    PopKeepsQueue(cfg, s);
    PopKeepsFlights(cfg, s);
    PopKeepsOnlyFlights(cfg, s);
    PopKeepsHeaders(cfg, s);
    PostedKeepsVisits(s, DispatchStep(cfg, s));
  }

  lemma DispatchKeepsInv(cfg: Config, s: Sys)
    requires Inv(cfg, s)
    ensures Inv(cfg, DispatchStep(cfg, s))
  {
    if s.p.pc == Idle {
      if s.p.size > 0 {
        StartKeepsInv(cfg, s);
      }
    } else if s.p.pc == Ended {
      ReleaseKeepsInv(cfg, s);
    } else if s.p.pc == Released {
      PopKeepsInv(cfg, s);
    } else if s.p.pc.slot < RECEIVERS {
      CallKeepsInv(cfg, s);
    } else {
      FinishKeepsInv(cfg, s);
    }
  }

  /** Every disciplined step keeps the invariant. */
  lemma StepKeepsInv(cfg: Config, s: Sys, ev: Event)
    requires Inv(cfg, s) && Disciplined(cfg, s, ev)
    ensures Inv(cfg, Apply(cfg, s, ev))
  {
    match ev
    case GetFree(who, id) => GetFreeKeepsInv(cfg, s, who, id);
    case Fill(who, e, bytes) => FillKeepsInv(cfg, s, who, e, bytes);
    case PostMessage(who, id, addr, bytes) => PostKeepsInv(cfg, s, who, id, addr, bytes);
    case LockMessage(e) => LockKeepsInv(cfg, s, e);
    case UnlockMessage(e) => UnlockKeepsInv(cfg, s, e);
    case RegisterOn(_, _) => RegistrationKeepsInv(cfg, s, ev);
    case UnregisterFrom(_, _) => RegistrationKeepsInv(cfg, s, ev);
    case Dispatch => DispatchKeepsInv(cfg, s);
  }
}
