/** Which callback the dispatcher calls with which message. */
module Calls {
  import opened Options
  import opened Bytes
  import opened Search
  import opened PumpModel
  import opened PumpInvariant
  import opened PumpRuns

  /** The receiver slots of a message id. */
  ghost function SlotsOf(cfg: Config, s: Sys, id: int): (r: seq<Callback>)
    requires SysShape(cfg, s) && Lookup(cfg, id).Some?
    ensures |r| == RECEIVERS
  {
    s.p.receivers[Lookup(cfg, id).value]
  }

  /** The step registers or removes a callback for the id. */
  predicate Changes(ev: Event, id: int) {
    match ev
    case RegisterOn(other, _) => other == id
    case UnregisterFrom(other, _) => other == id
    case _ => false
  }

  // ---- Registration ----

  /** A registration touches the slots of its own id only. It succeeds if one of them is empty or
      the callback's own, and then the callback stands there; no other callback is lost. */
  lemma RegisterStands(cfg: Config, s: Sys, id: int, cb: Callback)
    requires WellFormed(cfg) && SysShape(cfg, s) && cb != NO_CALLBACK && Lookup(cfg, id).Some?
    ensures var t, k := Apply(cfg, s, RegisterOn(id, cb)), Lookup(cfg, id).value;
            && SysShape(cfg, t) && t == s.(p := s.p.(receivers := t.p.receivers))
            && (forall j :: 0 <= j < |cfg.pools| && j != k ==> t.p.receivers[j] == s.p.receivers[j])
            && (cb in SlotsOf(cfg, t, id) <==> cb in SlotsOf(cfg, s, id) || NO_CALLBACK in SlotsOf(cfg, s, id))
            && (forall c :: c != NO_CALLBACK && c != cb ==> (c in SlotsOf(cfg, t, id) <==> c in SlotsOf(cfg, s, id)))
  {
    var k := Lookup(cfg, id).value;
    assert PoolOk(cfg, cfg.pools[k]);
    RegistrationKeepsShape(cfg, s.p, id, cb);
    RegisteredStands(s.p.receivers[k], cb);
  }

  lemma RegisteredStands(slots: seq<Callback>, cb: Callback)
    requires cb != NO_CALLBACK
    ensures cb in Registered(slots, cb) <==> cb in slots || NO_CALLBACK in slots
    ensures forall c :: c != NO_CALLBACK && c != cb ==> (c in Registered(slots, cb) <==> c in slots)
  {
    var t, r := Registered(slots, cb), RegisterSlot(slots, cb, 0);
    if r.Some? {
      assert t[r.value] == cb;
      forall c | c != NO_CALLBACK && c != cb
        ensures c in t <==> c in slots
      {
        if c in slots {
          var j :| 0 <= j < |slots| && slots[j] == c;
          assert t[j] == c;
        }
      }
    }
  }

  /** A removal touches the slots of its own id only, and empties the first one of the callback. */
  lemma UnregisterClears(cfg: Config, s: Sys, id: int, cb: Callback)
    requires WellFormed(cfg) && SysShape(cfg, s) && cb != NO_CALLBACK && Lookup(cfg, id).Some?
    requires NoDuplicates(SlotsOf(cfg, s, id))
    ensures var t, k := Apply(cfg, s, UnregisterFrom(id, cb)), Lookup(cfg, id).value;
            && SysShape(cfg, t) && t == s.(p := s.p.(receivers := t.p.receivers))
            && (forall j :: 0 <= j < |cfg.pools| && j != k ==> t.p.receivers[j] == s.p.receivers[j])
            && cb !in SlotsOf(cfg, t, id)
            && (forall j :: 0 <= j < RECEIVERS && SlotsOf(cfg, s, id)[j] != cb ==>
                  SlotsOf(cfg, t, id)[j] == SlotsOf(cfg, s, id)[j])
  {
    var k := Lookup(cfg, id).value;
    assert PoolOk(cfg, cfg.pools[k]);
    RegistrationKeepsShape(cfg, s.p, id, cb);
    UnregisterRemoves(s.p.receivers[k], cb);
  }

  lemma OthersKeepSlots(cfg: Config, s: Sys, ev: Event, id: int)
    requires Inv(cfg, s) && Disciplined(cfg, s, ev) && !Changes(ev, id) && Lookup(cfg, id).Some?
    ensures SysShape(cfg, Apply(cfg, s, ev)) && SlotsOf(cfg, Apply(cfg, s, ev), id) == SlotsOf(cfg, s, id)
  {
    ApplyKeepsShape(cfg, s, ev);
    match ev
    case RegisterOn(other, _) =>
    case UnregisterFrom(other, _) =>
    case PostMessage(_, other, addr, bytes) => PostKeepsSlots(cfg, s, other, addr, bytes);
    case _ =>
  }

  lemma PostKeepsSlots(cfg: Config, s: Sys, id: int, addr: int, bytes: seq<byte>)
    requires WellFormed(cfg) && SysShape(cfg, s) && PostCallable(cfg, id, addr, bytes)
    ensures PostStep(cfg, s, id, addr, bytes).p.receivers == s.p.receivers
  {
  }

  // ---- One look ----

  /** The dispatcher's look at a slot: it finds the callback that stands in that slot of the
      message's own id at that moment, and shows it the message as it was posted. */
  lemma LookCalls(cfg: Config, s: Sys)
    requires Inv(cfg, s) && s.p.pc.Calling? && s.p.pc.slot < RECEIVERS
    ensures s.done < |s.posted| && Lookup(cfg, s.posted[s.done].id).Some?
    ensures var m := s.posted[s.done];
            DispatchStep(cfg, s).visits ==
            s.visits + [Visit(s.p.pc.slot, SlotsOf(cfg, s, m.id)[s.p.pc.slot], m.id, m.bytes)]
  {
    FrontIsNext(cfg, s);
    assert InFlight(s, s.done);
  }

  /** How many messages slot i has been looked at for. */
  function Seen(s: Sys, i: nat): nat
    requires i < RECEIVERS
  {
    s.done + match s.p.pc
             case Idle => 0
             case Calling(j) => if i < j then 1 else 0
             case _ => 1
  }

  lemma SeenIsPosted(cfg: Config, s: Sys, i: nat)
    requires Inv(cfg, s) && i < RECEIVERS
    ensures Seen(s, i) <= |s.posted|
  {
    assert RingOk(s);
  }

  /** A step in which the dispatcher looks at a receiver slot. */
  ghost predicate Looks(cfg: Config, s: Sys, t: Sys)
    requires Inv(cfg, s)
  {
    && s.p.pc.Calling? && s.p.pc.slot < RECEIVERS && s.done < |s.posted|
    && var m := s.posted[s.done];
       && Lookup(cfg, m.id).Some?
       && t.visits == s.visits + [Visit(s.p.pc.slot, SlotsOf(cfg, s, m.id)[s.p.pc.slot], m.id, m.bytes)]
       && forall i :: 0 <= i < RECEIVERS ==> Seen(t, i) == Seen(s, i) + if i == s.p.pc.slot then 1 else 0
  }

  /** What a step does to the looks: nothing, or it adds one. */
  ghost predicate LooksStep(cfg: Config, s: Sys, t: Sys) {
    && Inv(cfg, s) && Inv(cfg, t) && s.posted <= t.posted
    && (Looks(cfg, s, t) ||
        (t.visits == s.visits && forall i :: 0 <= i < RECEIVERS ==> Seen(t, i) == Seen(s, i)))
  }

  lemma DispatchLooks(cfg: Config, s: Sys)
    requires Inv(cfg, s)
    ensures LooksStep(cfg, s, DispatchStep(cfg, s))
  {
    DispatchKeepsInv(cfg, s);
    if s.p.pc.Calling? && s.p.pc.slot < RECEIVERS {
      LookCalls(cfg, s);
    } else {
      assert s.p.pc.Calling? ==> s.p.pc.slot == RECEIVERS by { assert RingOk(s); }
    }
  }

  lemma QuietStep(cfg: Config, s: Sys, t: Sys)
    requires Inv(cfg, s) && Inv(cfg, t) && s.posted <= t.posted
    requires t.visits == s.visits && t.done == s.done && t.p.pc == s.p.pc
    ensures LooksStep(cfg, s, t)
  {
  }

  lemma PumpLooks(cfg: Config, s: Sys, ev: Event)
    requires Inv(cfg, s) && Disciplined(cfg, s, ev)
    ensures LooksStep(cfg, s, Apply(cfg, s, ev))
  {
    if ev == Dispatch {
      DispatchLooks(cfg, s);
    } else {
      StepKeepsInv(cfg, s, ev);
      OthersAreQuiet(cfg, s, ev);
      QuietStep(cfg, s, Apply(cfg, s, ev));
    }
  }

  // ---- All calls of a run ----

  /** The messages of one id that a callback is called with, in order. */
  function CallsOf(visits: seq<Visit>, cb: Callback, id: int): seq<seq<byte>> {
    if |visits| == 0 then []
    else
      (if visits[0].callback == cb && visits[0].id == id then [visits[0].bytes] else []) +
      CallsOf(visits[1..], cb, id)
  }

  /** The messages of one id among those posted, in order. */
  function MessagesOf(ms: seq<Message>, id: int): seq<seq<byte>> {
    if |ms| == 0 then []
    else (if ms[0].id == id then [ms[0].bytes] else []) + MessagesOf(ms[1..], id)
  }

  lemma {:induction false} CallsConcat(a: seq<Visit>, b: seq<Visit>, cb: Callback, id: int)
    ensures CallsOf(a + b, cb, id) == CallsOf(a, cb, id) + CallsOf(b, cb, id)
  {
    if |a| == 0 {
      assert a + b == b;
    } else {
      CallsConcat(a[1..], b, cb, id);
      DropConcat(a, b, 1);
    }
  }

  lemma {:induction false} MessagesConcat(a: seq<Message>, b: seq<Message>, id: int)
    ensures MessagesOf(a + b, id) == MessagesOf(a, id) + MessagesOf(b, id)
  {
    if |a| == 0 {
      assert a + b == b;
    } else {
      MessagesConcat(a[1..], b, id);
      DropConcat(a, b, 1);
    }
  }

  /** From `s` to `t`, the calls of `cb` for `id` are exactly the messages of that id that slot i
      has come to see, in order. */
  predicate Shows(s: Sys, t: Sys, cb: Callback, id: int, i: nat)
    requires i < RECEIVERS
  {
    && s.posted <= t.posted && s.visits <= t.visits && Seen(s, i) <= Seen(t, i) <= |t.posted|
    && CallsOf(t.visits[|s.visits|..], cb, id) == MessagesOf(t.posted[Seen(s, i)..Seen(t, i)], id)
  }

  /** The callback stands in slot i and in no other. */
  predicate StandsAt(slots: seq<Callback>, cb: Callback, i: nat) {
    i < |slots| && forall j :: 0 <= j < |slots| ==> (slots[j] == cb <==> j == i)
  }

  lemma NothingShown(s: Sys, t: Sys, cb: Callback, id: int, i: nat)
    requires i < RECEIVERS && s.posted <= t.posted && t.visits == s.visits && Seen(t, i) == Seen(s, i) <= |t.posted|
    ensures Shows(s, t, cb, id, i)
  {
  }

  lemma OneShown(s: Sys, t: Sys, v: Visit, cb: Callback, id: int, i: nat)
    requires i < RECEIVERS && s.posted <= t.posted && t.visits == s.visits + [v] && s.done < |s.posted|
    requires Seen(s, i) <= Seen(t, i) <= |t.posted|
    requires Seen(t, i) > Seen(s, i) ==> Seen(t, i) == Seen(s, i) + 1 && Seen(s, i) == s.done
    requires v.id == s.posted[s.done].id && v.bytes == s.posted[s.done].bytes
    requires v.id == id ==> (v.callback == cb <==> Seen(t, i) > Seen(s, i))
    ensures Shows(s, t, cb, id, i)
  {
    assert t.visits[|s.visits|..] == [v];
    assert [v][1..] == [];
    var seen := t.posted[Seen(s, i)..Seen(t, i)];
    if Seen(t, i) > Seen(s, i) {
      assert t.posted[s.done] == s.posted[s.done];
      assert seen == [s.posted[s.done]] && seen[1..] == [];
    }
  }

  lemma StepShows(cfg: Config, s: Sys, t: Sys, cb: Callback, id: int, i: nat)
    requires LooksStep(cfg, s, t) && Lookup(cfg, id).Some? && StandsAt(SlotsOf(cfg, s, id), cb, i)
    ensures Shows(s, t, cb, id, i)
  {
    SeenIsPosted(cfg, t, i);
    if Looks(cfg, s, t) {
      OneShown(s, t, t.visits[|s.visits|], cb, id, i);
    } else {
      NothingShown(s, t, cb, id, i);
    }
  }

  lemma ShowsAndThen(s: Sys, m: Sys, t: Sys, cb: Callback, id: int, i: nat)
    requires i < RECEIVERS && Shows(s, m, cb, id, i) && Shows(m, t, cb, id, i)
    ensures Shows(s, t, cb, id, i)
  {
    var a, b, c := Seen(s, i), Seen(m, i), Seen(t, i);
    assert m.posted[a..b] == t.posted[a..b];
    assert t.posted[a..c] == t.posted[a..b] + t.posted[b..c];
    MessagesConcat(t.posted[a..b], t.posted[b..c], id);
    assert t.visits[|s.visits|..|m.visits|] == m.visits[|s.visits|..];
    assert t.visits[|s.visits|..] == t.visits[|s.visits|..|m.visits|] + t.visits[|m.visits|..];
    CallsConcat(m.visits[|s.visits|..], t.visits[|m.visits|..], cb, id);
  }

  /** Over every run in which no one registers or removes callbacks for an id, a callback that
      stands in one slot of that id is called with exactly the messages of the id, in the order of
      posting, once each: with those that its slot has come to see. */
  lemma {:induction false} CallsAreMessages(cfg: Config, s: Sys, evs: seq<Event>, cb: Callback, id: int, i: nat)
    requires Inv(cfg, s) && DisciplinedRun(cfg, s, evs) && Lookup(cfg, id).Some?
    requires forall ev :: ev in evs ==> !Changes(ev, id)
    requires StandsAt(SlotsOf(cfg, s, id), cb, i)
    ensures Shows(s, After(cfg, s, evs), cb, id, i)
    ensures StandsAt(SlotsOf(cfg, After(cfg, s, evs), id), cb, i)
    decreases |evs|
  {
    if |evs| == 0 {
      SeenIsPosted(cfg, s, i);
      NothingShown(s, s, cb, id, i);
    } else {
      StepKeepsInv(cfg, s, evs[0]);
      var m := Apply(cfg, s, evs[0]);
      PumpLooks(cfg, s, evs[0]);
      StepShows(cfg, s, m, cb, id, i);
      OthersKeepSlots(cfg, s, evs[0], id);
      CallsAreMessages(cfg, m, evs[1..], cb, id, i);
      ShowsAndThen(s, m, After(cfg, s, evs), cb, id, i);
    }
  }

  /** A callback that stands in none of the id's slots is not called for it. */
  lemma {:induction false} AbsentIsNotCalled(cfg: Config, s: Sys, evs: seq<Event>, cb: Callback, id: int)
    requires Inv(cfg, s) && DisciplinedRun(cfg, s, evs) && Lookup(cfg, id).Some?
    requires forall ev :: ev in evs ==> !Changes(ev, id)
    requires cb !in SlotsOf(cfg, s, id)
    ensures s.visits <= After(cfg, s, evs).visits
    ensures CallsOf(After(cfg, s, evs).visits[|s.visits|..], cb, id) == []
    decreases |evs|
  {
    if |evs| > 0 {
      StepKeepsInv(cfg, s, evs[0]);
      var m := Apply(cfg, s, evs[0]);
      PumpLooks(cfg, s, evs[0]);
      OthersKeepSlots(cfg, s, evs[0], id);
      AbsentIsNotCalled(cfg, m, evs[1..], cb, id);
      StepCallsOthers(cfg, s, m, cb, id);
      NoCallsAndThen(s.visits, m.visits, After(cfg, s, evs).visits, cb, id);
    }
  }

  lemma NoCallsAndThen(a: seq<Visit>, b: seq<Visit>, c: seq<Visit>, cb: Callback, id: int)
    requires a <= b <= c && CallsOf(b[|a|..], cb, id) == [] && CallsOf(c[|b|..], cb, id) == []
    ensures CallsOf(c[|a|..], cb, id) == []
  {
    assert c[|a|..] == b[|a|..] + c[|b|..];
    CallsConcat(b[|a|..], c[|b|..], cb, id);
  }

  lemma StepCallsOthers(cfg: Config, s: Sys, t: Sys, cb: Callback, id: int)
    requires LooksStep(cfg, s, t) && Lookup(cfg, id).Some? && cb !in SlotsOf(cfg, s, id)
    ensures s.visits <= t.visits && CallsOf(t.visits[|s.visits|..], cb, id) == []
  {
    if Looks(cfg, s, t) {
      var v := t.visits[|s.visits|];
      assert t.visits[|s.visits|..] == [v] && [v][1..] == [];
    }
  }

  /** Between two moments at which the queue is empty, a callback in a slot is called with all of
      the id's messages. */
  lemma EmptyQueueShowsAll(cfg: Config, s: Sys, t: Sys, cb: Callback, id: int, i: nat)
    requires Inv(cfg, s) && Inv(cfg, t) && i < RECEIVERS && Shows(s, t, cb, id, i)
    requires s.done == |s.posted| && t.done == |t.posted|
    ensures CallsOf(t.visits[|s.visits|..], cb, id) == MessagesOf(t.posted[|s.posted|..], id)
  {
    assert s.p.pc == Idle && t.p.pc == Idle by { assert RingOk(s) && RingOk(t); }
    assert t.posted[|s.posted|..|t.posted|] == t.posted[|s.posted|..];
  }

  /** From the registration on: a callback that registers for an id with its slots in order, and
      finds one, is called with exactly the messages of that id that its slot comes to see. */
  lemma RegisteredIsCalled(cfg: Config, s: Sys, evs: seq<Event>, cb: Callback, id: int) returns (i: nat)
    requires Inv(cfg, s) && cb != NO_CALLBACK && Lookup(cfg, id).Some?
    requires NoDuplicates(SlotsOf(cfg, s, id)) && Packed(SlotsOf(cfg, s, id))
    requires cb in SlotsOf(cfg, s, id) || NO_CALLBACK in SlotsOf(cfg, s, id)
    requires Inv(cfg, Apply(cfg, s, RegisterOn(id, cb))) && DisciplinedRun(cfg, Apply(cfg, s, RegisterOn(id, cb)), evs)
    requires forall ev :: ev in evs ==> !Changes(ev, id)
    ensures i < RECEIVERS
    ensures var r := Apply(cfg, s, RegisterOn(id, cb));
            SysShape(cfg, r) && StandsAt(SlotsOf(cfg, r, id), cb, i) && Shows(r, After(cfg, r, evs), cb, id, i)
  {
    var k := Lookup(cfg, id).value;
    assert PoolOk(cfg, cfg.pools[k]);
    var slots := Registered(s.p.receivers[k], cb);
    RegisterKeepsPacked(s.p.receivers[k], cb);
    i :| 0 <= i < |slots| && slots[i] == cb;
    var r := Apply(cfg, s, RegisterOn(id, cb));
    assert SlotsOf(cfg, r, id) == slots;
    CallsAreMessages(cfg, r, evs, cb, id, i);
  }

  /** At power-up all slots are empty, and in order. */
  lemma SlotsAtStart(cfg: Config, s: Sys, id: int)
    requires IsInitial(cfg, s) && Lookup(cfg, id).Some?
    ensures SlotsOf(cfg, s, id) == NO_RECEIVERS
    ensures NoDuplicates(NO_RECEIVERS) && Packed(NO_RECEIVERS)
  {
  }
}
