/** The software timer as functions on its table, and what holds over whole runs of it. Elapsed
    hardware ticks are inputs; callbacks are recorded and do not touch the table. */
module TimerModel {
  import opened Options
  import opened Search

  const MAX_HANDLES := 32
  const NO_CALLBACK: nat := 0
  const FOREVER := 0x7fffffff
  const UINT32 := 0x1_0000_0000

  datatype Handle = Handle(callback: nat, interval: nat, tickCounter: int, oneShot: bool)

  /** `fired` are the callbacks made so far, `setups` the intervals given to the hardware timer. */
  datatype State = State(handles: seq<Handle>, handling: bool, fired: seq<nat>, setups: seq<int>)

  const EMPTY := Handle(NO_CALLBACK, 0, 0, false)

  function Max(a: int, b: int): int {
    if a < b then b else a
  }

  function Min(a: int, b: int): int {
    if a > b then b else a
  }

  predicate Live(h: Handle) {
    h.callback != NO_CALLBACK
  }

  predicate Fires(h: Handle, elapsed: nat) {
    Live(h) && h.tickCounter - elapsed <= 0
  }

  /** One slot, `elapsed` ticks later. */
  function Tick(h: Handle, elapsed: nat): Handle {
    if !Live(h) then h
    else if !Fires(h, elapsed) then h.(tickCounter := h.tickCounter - elapsed)
    else if h.oneShot then h.(callback := NO_CALLBACK, tickCounter := h.tickCounter - elapsed)
    else h.(tickCounter := Min(Max(h.tickCounter - elapsed + h.interval, 0), h.interval))
  }

  function Ticked(hs: seq<Handle>, elapsed: nat): (r: seq<Handle>)
    ensures |r| == |hs|
    ensures forall i :: 0 <= i < |hs| ==> r[i] == Tick(hs[i], elapsed)
  {
    seq(|hs|, i requires 0 <= i < |hs| => Tick(hs[i], elapsed))
  }

  /** The callbacks that an update makes, in slot order. */
  function Fired(hs: seq<Handle>, elapsed: nat): seq<nat> {
    if |hs| == 0 then []
    else
      var before, last := Fired(hs[..|hs| - 1], elapsed), hs[|hs| - 1];
      if Fires(last, elapsed) then before + [last.callback] else before
  }

  function NextInterval(hs: seq<Handle>): int {
    if |hs| == 0 then FOREVER
    else
      var before, last := NextInterval(hs[..|hs| - 1]), hs[|hs| - 1];
      if Live(last) then Min(before, last.tickCounter) else before
  }

  /** Updating all slots, then setting up the hardware timer for no less than `least` ticks. */
  function Update(s: State, elapsed: nat, least: int): State {
    if s.handling then s
    else
      var hs := Ticked(s.handles, elapsed);
      var next := NextInterval(hs);
      State(hs, false, s.fired + Fired(s.handles, elapsed),
            if next != FOREVER then s.setups + [Max(next, least)] else s.setups)
  }

  function Callbacks(hs: seq<Handle>): (r: seq<nat>)
    ensures |r| == |hs| && forall i :: 0 <= i < |hs| ==> r[i] == hs[i].callback
  {
    seq(|hs|, i requires 0 <= i < |hs| => hs[i].callback)
  }

  /** The first slot of a callback at or behind slot `i`. */
  function IndexOf(hs: seq<Handle>, cb: nat, i: nat): (r: Option<nat>)
    requires i <= |hs|
    ensures r.Some? ==> i <= r.value < |hs| && hs[r.value].callback == cb
  {
    FirstIndex(Callbacks(hs), cb, i)
  }

  /** The slot a registration takes: the callback's own if it has one, else the first empty one. */
  function SlotFor(hs: seq<Handle>, cb: nat): (r: Option<nat>)
    ensures r.Some? ==> r.value < |hs|
  {
    match IndexOf(hs, cb, 0)
    case Some(i) => Some(i)
    case None => IndexOf(hs, NO_CALLBACK, 0)
  }

  /** The table after a registration; the first deadline is computed in 32 bits. */
  function Entered(hs: seq<Handle>, cb: nat, ticks: nat, start: nat, oneShot: bool): seq<Handle> {
    match SlotFor(hs, cb)
    case Some(i) => hs[i := Handle(cb, ticks, (ticks + start) % UINT32, oneShot)]
    case None => hs
  }

  function Register(s: State, cb: nat, ticks: nat, start: nat, elapsed: nat, oneShot: bool): State {
    if cb == NO_CALLBACK then s
    else Update(s.(handles := Entered(s.handles, cb, ticks, start, oneShot)), elapsed, 4)
  }

  function Removed(hs: seq<Handle>, cb: nat): seq<Handle> {
    match IndexOf(hs, cb, 0)
    case Some(i) => hs[i := hs[i].(callback := NO_CALLBACK)]
    case None => hs
  }

  function Unregister(s: State, cb: nat): State {
    if cb == NO_CALLBACK then s else s.(handles := Removed(s.handles, cb))
  }

  function Trigger(s: State, elapsed: nat): State {
    Update(s, elapsed, 40)
  }

  // ---- The table ----

  predicate Unique(hs: seq<Handle>) {
    forall i, j :: 0 <= i < j < |hs| && Live(hs[i]) ==> hs[i].callback != hs[j].callback
  }

  predicate CountersOk(hs: seq<Handle>) {
    forall i :: 0 <= i < |hs| && Live(hs[i]) ==> 0 <= hs[i].tickCounter
  }

  predicate TableOk(s: State) {
    |s.handles| == MAX_HANDLES && !s.handling && Unique(s.handles) && CountersOk(s.handles)
  }

  datatype Op =
    | DoRegister(cb: nat, ticks: nat, start: nat, elapsed: nat, oneShot: bool)
    | DoUnregister(cb: nat)
    | DoTrigger(elapsed: nat)

  function Do(s: State, op: Op): State {
    match op
    case DoRegister(cb, ticks, start, elapsed, oneShot) => Register(s, cb, ticks, start, elapsed, oneShot)
    case DoUnregister(cb) => Unregister(s, cb)
    case DoTrigger(elapsed) => Trigger(s, elapsed)
  }

  function Run(s: State, ops: seq<Op>): State {
    if |ops| == 0 then s else Do(Run(s, ops[..|ops| - 1]), ops[|ops| - 1])
  }

  lemma EnteredKeepsTable(hs: seq<Handle>, cb: nat, ticks: nat, start: nat, oneShot: bool)
    requires Unique(hs) && CountersOk(hs) && cb != NO_CALLBACK
    ensures var r := Entered(hs, cb, ticks, start, oneShot);
            && |r| == |hs| && Unique(r) && CountersOk(r)
            && ((exists i :: 0 <= i < |r| && r[i].callback == cb) <==>
                  exists i :: 0 <= i < |hs| && hs[i].callback in {cb, NO_CALLBACK})
  {
    var slot := SlotFor(hs, cb);
    if slot.Some? {
      assert Entered(hs, cb, ticks, start, oneShot)[slot.value].callback == cb;
    }
  }

  /** A removal takes the callback out of the table and leaves all other slots as they are. */
  lemma RemovedIsGone(hs: seq<Handle>, cb: nat)
    requires Unique(hs) && cb != NO_CALLBACK
    ensures var r := Removed(hs, cb);
            && |r| == |hs| && Unique(r)
            && (forall i :: 0 <= i < |hs| ==> r[i].callback != cb)
            && (forall i :: 0 <= i < |hs| && hs[i].callback != cb ==> r[i] == hs[i])
  {
    var slot := IndexOf(hs, cb, 0);
    if slot.Some? {
      forall i | 0 <= i < |hs| && i != slot.value
        ensures hs[i].callback != cb
      {
        assert Live(hs[slot.value]) && hs[slot.value].callback == cb;
      }
    }
  }

  lemma TickedKeepsTable(hs: seq<Handle>, elapsed: nat)
    requires Unique(hs)
    ensures Unique(Ticked(hs, elapsed)) && CountersOk(Ticked(hs, elapsed))
  {
    var r := Ticked(hs, elapsed);
    forall i, j | 0 <= i < j < |r| && Live(r[i])
      ensures r[i].callback != r[j].callback
    {
      assert Live(hs[i]) && hs[i].callback == r[i].callback;
    }
  }

  lemma DoKeepsTable(s: State, op: Op)
    requires TableOk(s)
    ensures TableOk(Do(s, op))
  {
    match op
    case DoRegister(cb, ticks, start, elapsed, oneShot) =>
      if cb != NO_CALLBACK {
        EnteredKeepsTable(s.handles, cb, ticks, start, oneShot);
        TickedKeepsTable(Entered(s.handles, cb, ticks, start, oneShot), elapsed);
      }
    case DoUnregister(cb) =>
    case DoTrigger(elapsed) => TickedKeepsTable(s.handles, elapsed);
  }

  /** Over every sequence of registrations, removals and updates no callback has two slots, and no
      live counter is negative. */
  lemma {:induction false} RunKeepsTable(s: State, ops: seq<Op>)
    requires TableOk(s)
    ensures TableOk(Run(s, ops))
  {
    if |ops| > 0 {
      RunKeepsTable(s, ops[..|ops| - 1]);
      DoKeepsTable(Run(s, ops[..|ops| - 1]), ops[|ops| - 1]);
    }
  }

  /** The next interval is the least live counter, or 0x7fffffff if that is less; so it fits 31
      bits whenever no live counter is negative. */
  lemma {:induction false} NextIntervalIsMinimum(hs: seq<Handle>)
    ensures NextInterval(hs) <= FOREVER
    ensures forall i :: 0 <= i < |hs| && Live(hs[i]) ==> NextInterval(hs) <= hs[i].tickCounter
    ensures NextInterval(hs) == FOREVER ||
            exists i :: 0 <= i < |hs| && Live(hs[i]) && hs[i].tickCounter == NextInterval(hs)
    ensures CountersOk(hs) ==> 0 <= NextInterval(hs)
  {
    if |hs| > 0 {
      var before := hs[..|hs| - 1];
      NextIntervalIsMinimum(before);
      if i :| 0 <= i < |before| && Live(before[i]) && before[i].tickCounter == NextInterval(before) {
        assert Live(hs[i]) && hs[i].tickCounter == NextInterval(before);
      }
      assert CountersOk(hs) ==> CountersOk(before);
      forall i | 0 <= i < |hs| && Live(hs[i])
        ensures NextInterval(hs) <= hs[i].tickCounter
      {
        if i < |before| {
          assert before[i] == hs[i];
        }
      }
    }
  }

  /** An update sets up the hardware timer exactly if some live counter is below 0x7fffffff, and
      then for exactly the earliest deadline, but at least `least` ticks. */
  lemma UpdateArmsIff(s: State, elapsed: nat, least: int)
    requires Unique(s.handles) && !s.handling
    ensures var t := Update(s, elapsed, least);
            var soon := exists i :: 0 <= i < |t.handles| && Live(t.handles[i]) && t.handles[i].tickCounter < FOREVER;
            && (t.setups != s.setups <==> soon)
            && (soon ==> |t.setups| == |s.setups| + 1 && t.setups[|s.setups|] >= least)
            && (soon ==> forall i :: 0 <= i < |t.handles| && Live(t.handles[i]) ==>
                           t.setups[|s.setups|] <= Max(t.handles[i].tickCounter, least))
            && (soon ==> exists i :: 0 <= i < |t.handles| && Live(t.handles[i]) &&
                           t.setups[|s.setups|] == Max(t.handles[i].tickCounter, least))
  {
    TickedKeepsTable(s.handles, elapsed);
    NextIntervalIsMinimum(Ticked(s.handles, elapsed));
  }

  /** What an update with a minimum of `least` ticks has to set up. */
  predicate SetsUp(s: State, t: State, least: int) {
    var soon := exists i :: 0 <= i < |t.handles| && Live(t.handles[i]) && t.handles[i].tickCounter < FOREVER;
    && (t.setups != s.setups <==> soon)
    && (soon ==>
          && |t.setups| == |s.setups| + 1 && t.setups[..|s.setups|] == s.setups && t.setups[|s.setups|] >= least
          && (forall i :: 0 <= i < |t.handles| && Live(t.handles[i]) ==>
                t.setups[|s.setups|] <= Max(t.handles[i].tickCounter, least))
          && (exists i :: 0 <= i < |t.handles| && Live(t.handles[i]) &&
                t.setups[|s.setups|] == Max(t.handles[i].tickCounter, least)))
  }

  /** A trigger sets up the hardware timer for the earliest deadline, but at least 40 ticks, if there
      is a deadline below 0x7fffffff. */
  lemma TriggerSetsUp(s: State, elapsed: nat)
    requires TableOk(s)
    ensures SetsUp(s, Do(s, DoTrigger(elapsed)), 40)
  {
    UpdateArmsIff(s, elapsed, 40);
  }

  /** A registration does the same, for at least 4 ticks. */
  lemma RegisterSetsUp(s: State, cb: nat, ticks: nat, start: nat, elapsed: nat, oneShot: bool)
    requires TableOk(s) && cb != NO_CALLBACK
    ensures SetsUp(s, Do(s, DoRegister(cb, ticks, start, elapsed, oneShot)), 4)
  {
    EnteredKeepsTable(s.handles, cb, ticks, start, oneShot);
    UpdateArmsIff(s.(handles := Entered(s.handles, cb, ticks, start, oneShot)), elapsed, 4);
  }

  /** A trigger that comes while the callbacks are being made changes nothing, and a registration
      only takes its slot. */
  lemma NestedCallsWait(s: State, cb: nat, ticks: nat, start: nat, elapsed: nat, oneShot: bool)
    requires s.handling
    ensures Do(s, DoTrigger(elapsed)) == s
    ensures var t := Do(s, DoRegister(cb, ticks, start, elapsed, oneShot));
            t == s.(handles := t.handles) && (cb == NO_CALLBACK ==> t == s)
  {
  }

  // ---- Never early, over whole runs ----

  function Count(xs: seq<nat>, cb: nat): nat {
    if |xs| == 0 then 0 else Count(xs[..|xs| - 1], cb) + if xs[|xs| - 1] == cb then 1 else 0
  }

  lemma {:induction false} CountConcat(xs: seq<nat>, ys: seq<nat>, cb: nat)
    ensures Count(xs + ys, cb) == Count(xs, cb) + Count(ys, cb)
  {
    if |ys| == 0 {
      assert xs + ys == xs;
    } else {
      CountConcat(xs, ys[..|ys| - 1], cb);
      assert (xs + ys)[..|xs + ys| - 1] == xs + ys[..|ys| - 1];
    }
  }

  lemma CountSnoc(xs: seq<nat>, x: nat, cb: nat)
    ensures Count(xs + [x], cb) == Count(xs, cb) + if x == cb then 1 else 0
  {
    assert (xs + [x])[..|xs|] == xs;
  }

  lemma {:induction false} AbsentDoesNotFire(hs: seq<Handle>, elapsed: nat, cb: nat)
    requires forall i :: 0 <= i < |hs| ==> hs[i].callback != cb
    ensures Count(Fired(hs, elapsed), cb) == 0
  {
    if |hs| > 0 {
      var before, last := hs[..|hs| - 1], hs[|hs| - 1];
      AbsentDoesNotFire(before, elapsed, cb);
      CountSnoc(Fired(before, elapsed), last.callback, cb);
    }
  }

  /** An update calls a live callback once if its slot has run out, and otherwise not at all. */
  lemma {:induction false} FiresOncePerUpdate(hs: seq<Handle>, elapsed: nat, i: nat)
    requires Unique(hs) && i < |hs| && Live(hs[i])
    ensures Count(Fired(hs, elapsed), hs[i].callback) == if hs[i].tickCounter <= elapsed then 1 else 0
  {
    var before, last := hs[..|hs| - 1], hs[|hs| - 1];
    CountSnoc(Fired(before, elapsed), last.callback, hs[i].callback);
    if i == |hs| - 1 {
      forall j | 0 <= j < |before|
        ensures before[j].callback != last.callback
      {
        assert Live(hs[j]) ==> hs[j].callback != hs[i].callback;
      }
      AbsentDoesNotFire(before, elapsed, last.callback);
    } else {
      FiresOncePerUpdate(before, elapsed, i);
      assert hs[i].callback != last.callback;
    }
  }

  /** The callbacks are made in slot order. */
  lemma {:induction false} FiredInSlotOrder(hs: seq<Handle>, elapsed: nat, i: nat, j: nat) returns (m: nat, n: nat)
    requires i < j < |hs| && Live(hs[i]) && Live(hs[j]) && hs[i].tickCounter <= elapsed && hs[j].tickCounter <= elapsed
    ensures m < n < |Fired(hs, elapsed)|
    ensures Fired(hs, elapsed)[m] == hs[i].callback && Fired(hs, elapsed)[n] == hs[j].callback
  {
    var before := hs[..|hs| - 1];
    if j < |hs| - 1 {
      m, n := FiredInSlotOrder(before, elapsed, i, j);
    } else {
      m := FiredHas(before, elapsed, i);
      n := |Fired(before, elapsed)|;
    }
  }

  lemma {:induction false} FiredHas(hs: seq<Handle>, elapsed: nat, i: nat) returns (m: nat)
    requires i < |hs| && Live(hs[i]) && hs[i].tickCounter <= elapsed
    ensures m < |Fired(hs, elapsed)| && Fired(hs, elapsed)[m] == hs[i].callback
  {
    var before := hs[..|hs| - 1];
    if i < |hs| - 1 {
      m := FiredHas(before, elapsed, i);
    } else {
      m := |Fired(before, elapsed)|;
    }
  }

  /** Registrations and triggers update the running timers by the ticks that have passed. */
  predicate Updates(op: Op) {
    match op
    case DoRegister(cb, _, _, _, _) => cb != NO_CALLBACK
    case DoUnregister(_) => false
    case DoTrigger(_) => true
  }

  function Passed(op: Op): nat {
    if Updates(op) then op.elapsed else 0
  }

  function TotalPassed(ops: seq<Op>): nat {
    if |ops| == 0 then 0 else TotalPassed(ops[..|ops| - 1]) + Passed(ops[|ops| - 1])
  }

  predicate LeavesAlone(op: Op, cb: nat) {
    match op
    case DoRegister(other, _, _, _, _) => other != cb
    case DoUnregister(other) => other != cb
    case DoTrigger(_) => true
  }

  function After(h: Handle, op: Op): Handle {
    if Updates(op) then Tick(h, op.elapsed) else h
  }

  function FiresIn(h: Handle, op: Op): nat {
    if Updates(op) && Fires(h, op.elapsed) then 1 else 0
  }

  /** What one operation on others does to a timer: time passes, and it fires if it is due. */
  lemma OneStep(s: State, op: Op, i: nat, cb: nat)
    requires TableOk(s) && i < MAX_HANDLES && cb != NO_CALLBACK && s.handles[i].callback == cb && LeavesAlone(op, cb)
    ensures var t := Do(s, op);
            && TableOk(t) && t.handles[i] == After(s.handles[i], op)
            && Count(t.fired, cb) == Count(s.fired, cb) + FiresIn(s.handles[i], op)
  {
    DoKeepsTable(s, op);
    match op
    case DoRegister(other, ticks, start, elapsed, oneShot) =>
      if other != NO_CALLBACK {
        EnteredKeepsTable(s.handles, other, ticks, start, oneShot);
        var hs := Entered(s.handles, other, ticks, start, oneShot);
        assert hs[i] == s.handles[i];
        FiresOncePerUpdate(hs, elapsed, i);
        CountConcat(s.fired, Fired(hs, elapsed), cb);
      }
    case DoUnregister(other) =>
    case DoTrigger(elapsed) =>
      FiresOncePerUpdate(s.handles, elapsed, i);
      CountConcat(s.fired, Fired(s.handles, elapsed), cb);
  }

  /** A live timer is called by an update exactly if its counter is not above the ticks passed, and
      then once. */
  lemma CalledIffDue(s: State, op: Op, i: nat, cb: nat)
    requires TableOk(s) && i < MAX_HANDLES && cb != NO_CALLBACK && s.handles[i].callback == cb
    requires LeavesAlone(op, cb) && Updates(op)
    ensures Count(Do(s, op).fired, cb) == Count(s.fired, cb) + if s.handles[i].tickCounter <= op.elapsed then 1 else 0
  {
    OneStep(s, op, i, cb);
  }

  /** The next deadline of a periodic timer that has been called is one interval behind the last,
      or at once if that has passed already. */
  lemma NextDeadline(s: State, op: Op, i: nat, cb: nat)
    requires TableOk(s) && i < MAX_HANDLES && cb != NO_CALLBACK && s.handles[i].callback == cb && !s.handles[i].oneShot
    requires LeavesAlone(op, cb) && Updates(op) && s.handles[i].tickCounter <= op.elapsed
    ensures var h, due := s.handles[i], s.handles[i].tickCounter + s.handles[i].interval;
            Do(s, op).handles[i] == h.(tickCounter := if op.elapsed < due then due - op.elapsed else 0)
  {
    OneStep(s, op, i, cb);
  }

  /** Catching up: a periodic timer that an update finds a whole interval late, or more, is called
      by it and again by the very next one, however soon that comes. */
  lemma LateCatchesUp(s: State, first: Op, second: Op, i: nat, cb: nat)
    requires TableOk(s) && i < MAX_HANDLES && cb != NO_CALLBACK && s.handles[i].callback == cb && !s.handles[i].oneShot
    requires LeavesAlone(first, cb) && LeavesAlone(second, cb) && Updates(first) && Updates(second)
    requires first.elapsed >= s.handles[i].tickCounter + s.handles[i].interval
    ensures Count(Do(s, first).fired, cb) == Count(s.fired, cb) + 1
    ensures Count(Run(s, [first, second]).fired, cb) == Count(s.fired, cb) + 2
  {
    var m := Do(s, first);
    OneStep(s, first, i, cb);
    NextDeadline(s, first, i, cb);
    CalledIffDue(m, second, i, cb);
    assert [first, second][..1] == [first] && [first][..0] == [];
    assert Run(s, [first]) == Do(Run(s, []), first);
  }

  /** The bounds of a periodic timer that started with counter `c0`, has fired `k` times, and has
      seen `total` ticks pass. */
  predicate OnTime(h: Handle, c0: int, k: nat, total: nat) {
    && 0 <= h.tickCounter <= Max(c0, h.interval)
    && h.tickCounter >= c0 + k * h.interval - total
    && (k > 0 ==> total >= c0 + (k - 1) * h.interval)
  }

  lemma StaysOnTime(h: Handle, c0: int, k: nat, total: nat, op: Op)
    requires Live(h) && !h.oneShot && OnTime(h, c0, k, total)
    ensures OnTime(After(h, op), c0, k + FiresIn(h, op), total + Passed(op))
  {
    assert (k + 1) * h.interval == k * h.interval + h.interval;
  }

  lemma StepStaysOnTime(m: State, op: Op, i: nat, cb: nat, c0: int, k: nat, total: nat)
    requires TableOk(m) && i < MAX_HANDLES && cb != NO_CALLBACK && LeavesAlone(op, cb)
    requires m.handles[i].callback == cb && !m.handles[i].oneShot && OnTime(m.handles[i], c0, k, total)
    ensures var t := Do(m, op);
            && TableOk(t) && t.handles[i].callback == cb && !t.handles[i].oneShot
            && t.handles[i].interval == m.handles[i].interval
            && Count(t.fired, cb) >= Count(m.fired, cb)
            && OnTime(t.handles[i], c0, k + (Count(t.fired, cb) - Count(m.fired, cb)), total + Passed(op))
  {
    OneStep(m, op, i, cb);
    StaysOnTime(m.handles[i], c0, k, total, op);
  }

  lemma {:induction false} StaysOnTimeOverRuns(s: State, ops: seq<Op>, i: nat, cb: nat, c0: int, k: nat, total: nat)
    requires TableOk(s) && i < MAX_HANDLES && cb != NO_CALLBACK
    requires s.handles[i].callback == cb && !s.handles[i].oneShot && OnTime(s.handles[i], c0, k, total)
    requires forall op :: op in ops ==> LeavesAlone(op, cb)
    ensures var t := Run(s, ops);
            && TableOk(t) && t.handles[i].callback == cb && !t.handles[i].oneShot
            && t.handles[i].interval == s.handles[i].interval
            && Count(t.fired, cb) >= Count(s.fired, cb)
            && OnTime(t.handles[i], c0, k + (Count(t.fired, cb) - Count(s.fired, cb)), total + TotalPassed(ops))
  {
    if |ops| > 0 {
      var before, op := ops[..|ops| - 1], ops[|ops| - 1];
      StaysOnTimeOverRuns(s, before, i, cb, c0, k, total);
      var m := Run(s, before);
      var k' := k + (Count(m.fired, cb) - Count(s.fired, cb));
      StepStaysOnTime(m, op, i, cb, c0, k', total + TotalPassed(before));
      var t := Do(m, op);
      assert t == Run(s, ops);
      assert k' + (Count(t.fired, cb) - Count(m.fired, cb)) == k + (Count(t.fired, cb) - Count(s.fired, cb));
    }
  }

  /** Never early, over every run: a periodic timer with counter c0 and interval I keeps its slot;
      its k-th firing does not come before c0 + (k - 1) I ticks have passed in all; and its
      counter stays between 0 and the larger of c0 and I, and never falls behind schedule. */
  lemma NeverEarly(s: State, ops: seq<Op>, i: nat, cb: nat)
    requires TableOk(s) && i < MAX_HANDLES && cb != NO_CALLBACK
    requires s.handles[i].callback == cb && !s.handles[i].oneShot
    requires forall op :: op in ops ==> LeavesAlone(op, cb)
    ensures var t := Run(s, ops);
            && TableOk(t) && t.handles[i].callback == cb && !t.handles[i].oneShot
            && t.handles[i].interval == s.handles[i].interval
            && Count(t.fired, cb) >= Count(s.fired, cb)
            && OnTime(t.handles[i], s.handles[i].tickCounter, Count(t.fired, cb) - Count(s.fired, cb), TotalPassed(ops))
  {
    StaysOnTimeOverRuns(s, ops, i, cb, s.handles[i].tickCounter, 0, 0);
  }

  /** The state of a timer when its registration call returns. */
  lemma JustRegistered(s: State, cb: nat, ticks: nat, start: nat, elapsed: nat) returns (i: nat)
    requires TableOk(s) && cb != NO_CALLBACK && SlotFor(s.handles, cb).Some? && ticks + start < UINT32
    ensures var t := Register(s, cb, ticks, start, elapsed, false);
            && TableOk(t) && i < MAX_HANDLES && t.handles[i].callback == cb && !t.handles[i].oneShot
            && t.handles[i].interval == ticks
            && Count(t.fired, cb) >= Count(s.fired, cb)
            && OnTime(t.handles[i], ticks + start, Count(t.fired, cb) - Count(s.fired, cb), elapsed)
  {
    i := SlotFor(s.handles, cb).value;
    var hs := Entered(s.handles, cb, ticks, start, false);
    DoKeepsTable(s, DoRegister(cb, ticks, start, elapsed, false));
    EnteredKeepsTable(s.handles, cb, ticks, start, false);
    assert hs[i] == Handle(cb, ticks, ticks + start, false);
    FiresOncePerUpdate(hs, elapsed, i);
    CountConcat(s.fired, Fired(hs, elapsed), cb);
    StaysOnTime(hs[i], ticks + start, 0, 0, DoTrigger(elapsed));
  }

  /** From the registration on: with `start` ticks on the clock when the call read it, the k-th
      callback of a periodic timer comes no earlier than k intervals later, in every run, also if
      the registration itself makes the first of them. */
  lemma RegisteredIsNeverEarly(s: State, cb: nat, ticks: nat, start: nat, elapsed: nat, ops: seq<Op>)
    requires TableOk(s) && cb != NO_CALLBACK && SlotFor(s.handles, cb).Some? && ticks + start < UINT32
    requires forall op :: op in ops ==> LeavesAlone(op, cb)
    ensures var t := Run(Register(s, cb, ticks, start, elapsed, false), ops);
            var k := Count(t.fired, cb) - Count(s.fired, cb);
            k >= 0 && (k > 0 ==> elapsed + TotalPassed(ops) >= start + k * ticks)
  {
    var i := JustRegistered(s, cb, ticks, start, elapsed);
    var r := Register(s, cb, ticks, start, elapsed, false);
    var k := Count(r.fired, cb) - Count(s.fired, cb);
    StaysOnTimeOverRuns(r, ops, i, cb, ticks + start, k, elapsed);
    var n := Count(Run(r, ops).fired, cb) - Count(s.fired, cb);
    assert n > 0 ==> (n - 1) * ticks + ticks == n * ticks;
  }

  /** The deadline is a 32-bit sum. With the clock between `start` and the deadline while the call
      is made, a registration makes its own first callback at once, early, exactly if that sum
      wraps. */
  lemma EarlyIffWrapped(s: State, cb: nat, ticks: nat, start: nat, elapsed: nat, oneShot: bool)
    requires TableOk(s) && cb != NO_CALLBACK && SlotFor(s.handles, cb).Some?
    requires ticks < UINT32 && start < UINT32 && start <= elapsed < start + ticks
    ensures var t := Register(s, cb, ticks, start, elapsed, oneShot);
            Count(t.fired, cb) > Count(s.fired, cb) <==> ticks + start >= UINT32
  {
    var i := SlotFor(s.handles, cb).value;
    var hs := Entered(s.handles, cb, ticks, start, oneShot);
    EnteredKeepsTable(s.handles, cb, ticks, start, oneShot);
    assert hs[i] == Handle(cb, ticks, (ticks + start) % UINT32, oneShot);
    FiresOncePerUpdate(hs, elapsed, i);
    CountConcat(s.fired, Fired(hs, elapsed), cb);
  }

  predicate OnSchedule(h: Handle, c0: int, k: nat, total: nat) {
    h.tickCounter == c0 + k * h.interval - total
  }

  lemma KeepsPlace(s: State, ops: seq<Op>, i: nat, cb: nat)
    requires TableOk(s) && i < MAX_HANDLES && cb != NO_CALLBACK
    requires s.handles[i].callback == cb && !s.handles[i].oneShot
    requires forall op :: op in ops ==> LeavesAlone(op, cb)
    ensures var t := Run(s, ops);
            && TableOk(t) && t.handles[i].callback == cb && !t.handles[i].oneShot
            && t.handles[i].interval == s.handles[i].interval && t.handles[i].tickCounter >= 0
  {
    NeverEarly(s, ops, i, cb);
  }

  lemma StepStaysOnSchedule(m: State, op: Op, i: nat, cb: nat, c0: int, k: nat, total: nat)
    requires TableOk(m) && i < MAX_HANDLES && cb != NO_CALLBACK && LeavesAlone(op, cb)
    requires m.handles[i].callback == cb && !m.handles[i].oneShot && Passed(op) <= m.handles[i].interval
    requires OnSchedule(m.handles[i], c0, k, total)
    ensures var t := Do(m, op);
            && TableOk(t) && Count(t.fired, cb) >= Count(m.fired, cb)
            && OnSchedule(t.handles[i], c0, k + (Count(t.fired, cb) - Count(m.fired, cb)), total + Passed(op))
  {
    OneStep(m, op, i, cb);
    StaysOnSchedule(m.handles[i], c0, k, total, op);
  }

  lemma StaysOnSchedule(h: Handle, c0: int, k: nat, total: nat, op: Op)
    requires Live(h) && !h.oneShot && h.tickCounter >= 0 && OnSchedule(h, c0, k, total) && Passed(op) <= h.interval
    ensures OnSchedule(After(h, op), c0, k + FiresIn(h, op), total + Passed(op))
  {
    assert (k + 1) * h.interval == k * h.interval + h.interval;
  }

  /** No drift: if no more than one interval ever passes between two updates, the schedule is kept
      exactly, so the number of firings follows from the ticks that have passed. */
  lemma {:induction false} NoDrift(s: State, ops: seq<Op>, i: nat, cb: nat)
    requires TableOk(s) && i < MAX_HANDLES && cb != NO_CALLBACK
    requires s.handles[i].callback == cb && !s.handles[i].oneShot
    requires forall op :: op in ops ==> LeavesAlone(op, cb) && Passed(op) <= s.handles[i].interval
    ensures var t := Run(s, ops);
            && TableOk(t) && Count(t.fired, cb) >= Count(s.fired, cb)
            && OnSchedule(t.handles[i], s.handles[i].tickCounter,
                          Count(t.fired, cb) - Count(s.fired, cb), TotalPassed(ops))
  {
    if |ops| > 0 {
      var before, op := ops[..|ops| - 1], ops[|ops| - 1];
      KeepsPlace(s, before, i, cb);
      NoDrift(s, before, i, cb);
      var m := Run(s, before);
      var k := Count(m.fired, cb) - Count(s.fired, cb);
      StepStaysOnSchedule(m, op, i, cb, s.handles[i].tickCounter, k, TotalPassed(before));
      var t := Do(m, op);
      assert t == Run(s, ops);
      assert k + (Count(t.fired, cb) - Count(m.fired, cb)) == Count(t.fired, cb) - Count(s.fired, cb);
    }
  }

  /** A one-shot timer fires at most once in any run, only when its counter has passed, and has
      then left its slot. */
  lemma {:induction false} OneShotFiresOnce(s: State, ops: seq<Op>, i: nat, cb: nat)
    requires TableOk(s) && i < MAX_HANDLES && cb != NO_CALLBACK
    requires s.handles[i].callback == cb && s.handles[i].oneShot
    requires forall op :: op in ops ==> LeavesAlone(op, cb)
    ensures var t := Run(s, ops);
            var k := Count(t.fired, cb) - Count(s.fired, cb);
            && TableOk(t) && 0 <= k <= 1
            && (k == 0 ==> t.handles[i] == s.handles[i].(tickCounter := s.handles[i].tickCounter - TotalPassed(ops)))
            && (k == 1 ==> TotalPassed(ops) >= s.handles[i].tickCounter && IndexOf(t.handles, cb, 0).None?)
  {
    if |ops| > 0 {
      var before, op := ops[..|ops| - 1], ops[|ops| - 1];
      OneShotFiresOnce(s, before, i, cb);
      var m := Run(s, before);
      DoKeepsTable(m, op);
      if Count(m.fired, cb) == Count(s.fired, cb) {
        OneStep(m, op, i, cb);
        if FiresIn(m.handles[i], op) == 1 {
          FiredLeavesTable(m, op, i, cb);
        }
      } else {
        AbsentStaysAbsent(m, op, cb);
      }
    }
  }

  lemma FiredLeavesTable(s: State, op: Op, i: nat, cb: nat)
    requires TableOk(s) && i < MAX_HANDLES && cb != NO_CALLBACK && LeavesAlone(op, cb)
    requires s.handles[i].callback == cb && s.handles[i].oneShot && FiresIn(s.handles[i], op) == 1
    ensures IndexOf(Do(s, op).handles, cb, 0).None?
  {
    var t := Do(s, op);
    OneStep(s, op, i, cb);
    forall j | 0 <= j < |t.handles|
      ensures t.handles[j].callback != cb
    {
      assert j != i ==> s.handles[j].callback != cb;
    }
  }

  lemma AbsentStaysAbsent(s: State, op: Op, cb: nat)
    requires TableOk(s) && cb != NO_CALLBACK && LeavesAlone(op, cb) && IndexOf(s.handles, cb, 0).None?
    ensures IndexOf(Do(s, op).handles, cb, 0).None? && Count(Do(s, op).fired, cb) == Count(s.fired, cb)
  {
    if Updates(op) {
      var hs := if op.DoRegister? then Entered(s.handles, op.cb, op.ticks, op.start, op.oneShot) else s.handles;
      AbsentDoesNotFire(hs, op.elapsed, cb);
      CountConcat(s.fired, Fired(hs, op.elapsed), cb);
    }
  }

  /** A callback without a slot is not called in any run that leaves it alone. */
  lemma {:induction false} AbsentIsNotCalled(s: State, ops: seq<Op>, cb: nat)
    requires TableOk(s) && cb != NO_CALLBACK && IndexOf(s.handles, cb, 0).None?
    requires forall op :: op in ops ==> LeavesAlone(op, cb)
    ensures var t := Run(s, ops);
            TableOk(t) && IndexOf(t.handles, cb, 0).None? && Count(t.fired, cb) == Count(s.fired, cb)
  {
    if |ops| > 0 {
      var before, op := ops[..|ops| - 1], ops[|ops| - 1];
      AbsentIsNotCalled(s, before, cb);
      DoKeepsTable(Run(s, before), op);
      AbsentStaysAbsent(Run(s, before), op, cb);
    }
  }

  /** So a removal is for good, until someone registers the callback again. */
  lemma RemovedIsNotCalled(s: State, cb: nat, ops: seq<Op>)
    requires TableOk(s) && cb != NO_CALLBACK
    requires forall op :: op in ops ==> LeavesAlone(op, cb)
    ensures Count(Run(Unregister(s, cb), ops).fired, cb) == Count(s.fired, cb)
  {
    DoKeepsTable(s, DoUnregister(cb));
    RemovedIsGone(s.handles, cb);
    AbsentIsNotCalled(Unregister(s, cb), ops, cb);
  }

  /** Operations only add to the callbacks made. */
  lemma {:induction false} CallsGrow(s: State, ops: seq<Op>, cb: nat)
    ensures Count(Run(s, ops).fired, cb) >= Count(s.fired, cb)
  {
    if |ops| > 0 {
      var before, op := ops[..|ops| - 1], ops[|ops| - 1];
      CallsGrow(s, before, cb);
      StepCallsGrow(Run(s, before), op, cb);
    }
  }

  lemma StepCallsGrow(s: State, op: Op, cb: nat)
    ensures Count(Do(s, op).fired, cb) >= Count(s.fired, cb)
  {
    match op
    case DoRegister(other, ticks, start, elapsed, oneShot) =>
      CountConcat(s.fired, Fired(Entered(s.handles, other, ticks, start, oneShot), elapsed), cb);
    case DoUnregister(other) =>
    case DoTrigger(elapsed) => CountConcat(s.fired, Fired(s.handles, elapsed), cb);
  }

  /** A timer that waits is called for the first time in the very update with which its time has
      passed. */
  lemma {:induction false} FirstCallIffDue(s: State, ops: seq<Op>, i: nat, cb: nat)
    requires TableOk(s) && i < MAX_HANDLES && cb != NO_CALLBACK && s.handles[i].callback == cb
    requires s.handles[i].tickCounter > 0 && forall op :: op in ops ==> LeavesAlone(op, cb)
    ensures var t := Run(s, ops);
            && TableOk(t)
            && (Count(t.fired, cb) > Count(s.fired, cb) <==> TotalPassed(ops) >= s.handles[i].tickCounter)
            && (Count(t.fired, cb) == Count(s.fired, cb) ==>
                  t.handles[i] == s.handles[i].(tickCounter := s.handles[i].tickCounter - TotalPassed(ops)))
  {
    if |ops| > 0 {
      var before, op := ops[..|ops| - 1], ops[|ops| - 1];
      var m := Run(s, before);
      FirstCallIffDue(s, before, i, cb);
      CallsGrow(s, before, cb);
      StepCallsGrow(m, op, cb);
      DoKeepsTable(m, op);
      if Count(m.fired, cb) == Count(s.fired, cb) {
        OneStep(m, op, i, cb);
      }
    }
  }

  /** From the registration on, with `start` ticks on the clock when the call read it: the first
      callback of a timer, periodic or not, has been made exactly if its time has passed since. */
  lemma RegisteredIsCalledInTime(s: State, cb: nat, ticks: nat, start: nat, elapsed: nat, oneShot: bool, ops: seq<Op>)
    requires TableOk(s) && cb != NO_CALLBACK && SlotFor(s.handles, cb).Some? && ticks + start < UINT32
    requires forall op :: op in ops ==> LeavesAlone(op, cb)
    ensures var t := Run(Register(s, cb, ticks, start, elapsed, oneShot), ops);
            Count(t.fired, cb) > Count(s.fired, cb) <==> elapsed + TotalPassed(ops) >= start + ticks
  {
    var i := SlotFor(s.handles, cb).value;
    var hs := Entered(s.handles, cb, ticks, start, oneShot);
    DoKeepsTable(s, DoRegister(cb, ticks, start, elapsed, oneShot));
    EnteredKeepsTable(s.handles, cb, ticks, start, oneShot);
    assert hs[i] == Handle(cb, ticks, ticks + start, oneShot);
    FiresOncePerUpdate(hs, elapsed, i);
    CountConcat(s.fired, Fired(hs, elapsed), cb);
    var r := Register(s, cb, ticks, start, elapsed, oneShot);
    if elapsed < ticks + start {
      FirstCallIffDue(r, ops, i, cb);
    }
    CallsGrow(r, ops, cb);
  }

  /** The slot of a one-shot timer when its registration call returns: it has been called and is
      gone if its deadline has passed meanwhile, and otherwise waits for it. */
  lemma JustRegisteredOnce(s: State, cb: nat, ticks: nat, start: nat, elapsed: nat) returns (i: nat)
    requires TableOk(s) && cb != NO_CALLBACK && SlotFor(s.handles, cb).Some? && ticks + start < UINT32
    ensures var t := Register(s, cb, ticks, start, elapsed, true);
            && TableOk(t) && i < MAX_HANDLES
            && if elapsed < ticks + start then
                 && Count(t.fired, cb) == Count(s.fired, cb)
                 && t.handles[i] == Handle(cb, ticks, ticks + start - elapsed, true)
               else Count(t.fired, cb) == Count(s.fired, cb) + 1 && IndexOf(t.handles, cb, 0).None?
  {
    i := SlotFor(s.handles, cb).value;
    var hs := Entered(s.handles, cb, ticks, start, true);
    DoKeepsTable(s, DoRegister(cb, ticks, start, elapsed, true));
    EnteredKeepsTable(s.handles, cb, ticks, start, true);
    assert hs[i] == Handle(cb, ticks, ticks + start, true);
    FiresOncePerUpdate(hs, elapsed, i);
    CountConcat(s.fired, Fired(hs, elapsed), cb);
    var t := Register(s, cb, ticks, start, elapsed, true);
    if elapsed >= ticks + start {
      forall j | 0 <= j < |t.handles|
        ensures t.handles[j].callback != cb
      {
        assert j != i ==> hs[j].callback != cb;
      }
    }
  }

  /** From the registration on: a one-shot timer is called once in any run in which its time passes,
      and not before; it keeps its slot exactly as long as it has not been called. */
  lemma RegisteredFiresOnce(s: State, cb: nat, ticks: nat, start: nat, elapsed: nat, ops: seq<Op>)
    requires TableOk(s) && cb != NO_CALLBACK && SlotFor(s.handles, cb).Some? && ticks + start < UINT32
    requires forall op :: op in ops ==> LeavesAlone(op, cb)
    ensures var t := Run(Register(s, cb, ticks, start, elapsed, true), ops);
            var k := Count(t.fired, cb) - Count(s.fired, cb);
            && k == (if elapsed + TotalPassed(ops) >= start + ticks then 1 else 0)
            && (k == 1 ==> IndexOf(t.handles, cb, 0).None?)
            && (k == 0 ==> exists i :: 0 <= i < |t.handles| && t.handles[i].callback == cb)
  {
    var i := JustRegisteredOnce(s, cb, ticks, start, elapsed);
    RegisteredIsCalledInTime(s, cb, ticks, start, elapsed, true, ops);
    var r := Register(s, cb, ticks, start, elapsed, true);
    if elapsed < ticks + start {
      OneShotFiresOnce(r, ops, i, cb);
      var t := Run(r, ops);
      assert Count(t.fired, cb) == Count(r.fired, cb) ==> t.handles[i].callback == cb;
    } else {
      AbsentIsNotCalled(r, ops, cb);
    }
  }
}
