/** What the pump's clients can rely on: an element that they acquire is theirs until they post it,
    what they write into it is what is posted, and locks add up. */
module Clients {
  import opened Options
  import opened Bytes
  import opened PumpModel
  import opened PumpInvariant
  import opened PumpRuns

  // ---- Acquiring ----

  /** An acquisition, for whatever id, takes the element that it hands out: a free one of the id's
      pool, which is held by its client with one reference from then on, and no one else gets it.
      Nothing else changes. */
  lemma Acquires(cfg: Config, s: Sys, who: nat, id: int, e: nat)
    requires Inv(cfg, s) && Acquirable(cfg, s.p, id) == Some(e)
    ensures e < cfg.elements && s.own[e] == Free && Lookup(cfg, id).Some?
    ensures var pool := cfg.pools[Lookup(cfg, id).value]; pool.base <= e < pool.base + pool.amount
    ensures var t := Apply(cfg, s, GetFree(who, id));
            && t == s.(p := s.p.(hdr := s.p.hdr[e := Header(MAGIC, 1, InUse)]), own := s.own[e := Held(who)])
            && SysShape(cfg, t) && forall other :: Acquirable(cfg, t.p, other) != Some(e)
  {
    assert PoolOk(cfg, cfg.pools[Lookup(cfg, id).value]);
    assert HeaderOk(s.p.hdr[e], s.own[e], s.locks[e], s.p.pc);
    ApplyKeepsShape(cfg, s, GetFree(who, id));
  }

  /** If there is none, nothing happens. */
  lemma AcquiresNothing(cfg: Config, s: Sys, who: nat, id: int)
    requires Inv(cfg, s) && Acquirable(cfg, s.p, id).None?
    ensures Apply(cfg, s, GetFree(who, id)) == s
  {
  }

  predicate PostsBy(ev: Event, who: nat) {
    ev.PostMessage? && ev.who == who
  }

  predicate FillsBy(ev: Event, who: nat, e: nat) {
    ev.Fill? && ev.who == who && ev.element == e
  }

  lemma HeldIsNotFree(cfg: Config, s: Sys, who: nat, e: nat)
    requires Inv(cfg, s) && e < cfg.elements && s.own[e] == Held(who)
    ensures !IsFree(s.p.hdr[e])
  {
    assert HeaderOk(s.p.hdr[e], s.own[e], s.locks[e], s.p.pc);
  }

  lemma DispatchLeavesHeld(cfg: Config, s: Sys, who: nat, e: nat)
    requires Inv(cfg, s) && e < cfg.elements && s.own[e] == Held(who)
    ensures var t := DispatchStep(cfg, s);
            |t.own| == |s.own| && |t.p.data| == |s.p.data| &&
            t.own[e] == Held(who) && t.p.data[e] == s.p.data[e]
  {
    if s.p.size > 0 {
      FrontIsNext(cfg, s);
      assert InFlight(s, s.done) ==> FlightOk(s, s.done);
    }
  }

  lemma PostTakesAnother(cfg: Config, s: Sys, ev: Event, who: nat, e: nat)
    requires Inv(cfg, s) && Disciplined(cfg, s, ev) && ev.PostMessage? && ev.who != who
    requires e < cfg.elements && s.own[e] == Held(who)
    ensures Post(cfg, s.p, ev.id, ev.addr, ev.bytes).element != Some(e)
  {
    HeldIsNotFree(cfg, s, who, e);
  }

  lemma PostLeavesHeld(cfg: Config, s: Sys, ev: Event, who: nat, e: nat)
    requires Inv(cfg, s) && Disciplined(cfg, s, ev) && ev.PostMessage? && ev.who != who
    requires e < cfg.elements && s.own[e] == Held(who)
    ensures var t := PostStep(cfg, s, ev.id, ev.addr, ev.bytes);
            |t.own| == |s.own| && |t.p.data| == |s.p.data| &&
            t.own[e] == Held(who) && t.p.data[e] == s.p.data[e]
  {
    PostTakesAnother(cfg, s, ev, who, e);
    PostKeepsShape(cfg, s.p, ev.id, ev.addr, ev.bytes);
  }

  lemma OthersLeaveHeld(cfg: Config, s: Sys, ev: Event, who: nat, e: nat)
    requires WellFormed(cfg) && SysShape(cfg, s) && Disciplined(cfg, s, ev) && !ev.PostMessage? && ev != Dispatch
    requires e < cfg.elements && s.own[e] == Held(who) && !IsFree(s.p.hdr[e])
    ensures var t := Apply(cfg, s, ev);
            |t.own| == |s.own| && |t.p.data| == |s.p.data| &&
            t.own[e] == Held(who) && (!FillsBy(ev, who, e) ==> t.p.data[e] == s.p.data[e])
  {
  }

  /** What a client holds stays with it in every step but its own posts, and only its own fills
      change what is in it. */
  lemma HeldStaysHeld(cfg: Config, s: Sys, ev: Event, who: nat, e: nat)
    requires Inv(cfg, s) && Disciplined(cfg, s, ev) && !PostsBy(ev, who)
    requires e < cfg.elements && s.own[e] == Held(who)
    ensures var t := Apply(cfg, s, ev);
            |t.own| == |s.own| && |t.p.data| == |s.p.data| &&
            t.own[e] == Held(who) && (!FillsBy(ev, who, e) ==> t.p.data[e] == s.p.data[e])
  {
    if ev.PostMessage? {
      PostLeavesHeld(cfg, s, ev, who, e);
    } else if ev == Dispatch {
      DispatchLeavesHeld(cfg, s, who, e);
    } else {
      HeldIsNotFree(cfg, s, who, e);
      OthersLeaveHeld(cfg, s, ev, who, e);
    }
  }

  lemma {:induction false} HeldOverRun(cfg: Config, s: Sys, evs: seq<Event>, who: nat, e: nat)
    requires Inv(cfg, s) && DisciplinedRun(cfg, s, evs) && e < cfg.elements && s.own[e] == Held(who)
    requires forall ev :: ev in evs ==> !PostsBy(ev, who)
    ensures After(cfg, s, evs).own[e] == Held(who)
    ensures (forall ev :: ev in evs ==> !FillsBy(ev, who, e)) ==> After(cfg, s, evs).p.data[e] == s.p.data[e]
    decreases |evs|
  {
    if |evs| > 0 {
      StepKeepsInv(cfg, s, evs[0]);
      HeldStaysHeld(cfg, s, evs[0], who, e);
      HeldOverRun(cfg, Apply(cfg, s, evs[0]), evs[1..], who, e);
    }
  }

  /** No element is handed out twice: until its client posts something, an acquired element is
      that client's, and no acquisition of any id yields it, whatever else happens. */
  lemma NeverHandedOutTwice(cfg: Config, s: Sys, who: nat, id: int, e: nat, evs: seq<Event>, other: int)
    requires Inv(cfg, s) && Acquirable(cfg, s.p, id) == Some(e)
    requires Inv(cfg, Apply(cfg, s, GetFree(who, id))) && DisciplinedRun(cfg, Apply(cfg, s, GetFree(who, id)), evs)
    requires forall ev :: ev in evs ==> !PostsBy(ev, who)
    ensures e < cfg.elements && After(cfg, Apply(cfg, s, GetFree(who, id)), evs).own[e] == Held(who)
    ensures Acquirable(cfg, After(cfg, Apply(cfg, s, GetFree(who, id)), evs).p, other) != Some(e)
  {
    Acquires(cfg, s, who, id, e);
    var r := Apply(cfg, s, GetFree(who, id));
    HeldOverRun(cfg, r, evs, who, e);
    HeldIsNotFree(cfg, After(cfg, r, evs), who, e);
  }

  // ---- Filling and posting ----

  /** What a client writes into its element is what is queued when it posts it, whatever others do
      in between. */
  lemma FilledIsPosted(cfg: Config, s: Sys, who: nat, k: nat, i: nat, bytes: seq<byte>, evs: seq<Event>, any: seq<byte>)
    requires Inv(cfg, s) && k < |cfg.pools| && i < cfg.pools[k].amount && cfg.pools[k].base + i < cfg.elements
    requires s.own[cfg.pools[k].base + i] == Held(who) && |bytes| == |s.p.data[cfg.pools[k].base + i]|
    requires var r := Apply(cfg, s, Fill(who, cfg.pools[k].base + i, bytes));
             Inv(cfg, r) && DisciplinedRun(cfg, r, evs)
    requires forall ev :: ev in evs ==> !PostsBy(ev, who) && !FillsBy(ev, who, cfg.pools[k].base + i)
    ensures PostCallable(cfg, cfg.pools[k].id, PayloadAddr(cfg, cfg.pools[k], i), any)
    ensures var e, id := cfg.pools[k].base + i, cfg.pools[k].id;
            var t := After(cfg, Apply(cfg, s, Fill(who, e, bytes)), evs);
            var u := PostStep(cfg, t, id, PayloadAddr(cfg, cfg.pools[k], i), any);
            if QueueFull(t.p) then u == t else u.posted == t.posted + [Message(id, e, bytes)]
  {
    var e := cfg.pools[k].base + i;
    var r := Apply(cfg, s, Fill(who, e, bytes));
    HeldOverRun(cfg, r, evs, who, e);
    ElementPost(cfg, After(cfg, r, evs), k, i, any);
  }

  // ---- Locks ----

  /** A lock on a live message adds one reference, unless there are 255; nothing else changes. */
  lemma LockAdds(cfg: Config, s: Sys, e: nat)
    requires Inv(cfg, s) && e < cfg.elements && s.own[e] in {Queued, Dispatching, Retained}
    ensures var t := Apply(cfg, s, LockMessage(e));
            if s.p.hdr[e].refCnt == 255 then t == s
            else
              && t.p.hdr == s.p.hdr[e := s.p.hdr[e].(refCnt := s.p.hdr[e].refCnt + 1)]
              && t == s.(p := s.p.(hdr := t.p.hdr), locks := s.locks[e := s.locks[e] + 1])
  {
    assert HeaderOk(s.p.hdr[e], s.own[e], s.locks[e], s.p.pc);
  }

  /** A returned lock takes one reference away; the last one of an element that the pump has
      released makes it free. */
  lemma UnlockReturns(cfg: Config, s: Sys, e: nat)
    requires Inv(cfg, s) && e < cfg.elements && s.locks[e] > 0
    ensures var t := Apply(cfg, s, UnlockMessage(e));
            && s.p.hdr[e].refCnt > 0
            && t.p.hdr == s.p.hdr[e := s.p.hdr[e].(refCnt := s.p.hdr[e].refCnt - 1)]
            && t.p == s.p.(hdr := t.p.hdr) && t.locks == s.locks[e := s.locks[e] - 1]
            && t.own == (if s.own[e] == Retained && s.locks[e] == 1 then s.own[e := Free] else s.own)
            && (IsFree(t.p.hdr[e]) <==> s.own[e] == Retained && s.locks[e] == 1)
            && t.posted == s.posted && t.done == s.done && t.visits == s.visits
  {
    assert HeaderOk(s.p.hdr[e], s.own[e], s.locks[e], s.p.pc);
  }

  lemma OthersKeepLocks(cfg: Config, s: Sys, ev: Event, e: nat)
    requires WellFormed(cfg) && SysShape(cfg, s) && Callable(cfg, s, ev) && e < cfg.elements
    requires ev != LockMessage(e) && ev != UnlockMessage(e)
    ensures |Apply(cfg, s, ev).locks| == cfg.elements && Apply(cfg, s, ev).locks[e] == s.locks[e]
  {
  }

  /** The locks on e that succeed during a run. */
  ghost function Taken(cfg: Config, s: Sys, evs: seq<Event>, e: nat): nat
    requires Inv(cfg, s) && DisciplinedRun(cfg, s, evs) && e < cfg.elements
    decreases |evs|
  {
    if |evs| == 0 then 0
    else
      StepKeepsInv(cfg, s, evs[0]);
      (if evs[0] == LockMessage(e) && s.p.hdr[e].refCnt < 255 then 1 else 0) +
      Taken(cfg, Apply(cfg, s, evs[0]), evs[1..], e)
  }

  function Returned(evs: seq<Event>, e: nat): nat {
    if |evs| == 0 then 0 else (if evs[0] == UnlockMessage(e) then 1 else 0) + Returned(evs[1..], e)
  }

  lemma LockStepBalance(cfg: Config, s: Sys, ev: Event, e: nat)
    requires Inv(cfg, s) && Disciplined(cfg, s, ev) && e < cfg.elements
    ensures |Apply(cfg, s, ev).locks| == cfg.elements
    ensures Apply(cfg, s, ev).locks[e] == s.locks[e] +
            (if ev == LockMessage(e) && s.p.hdr[e].refCnt < 255 then 1 else 0) -
            (if ev == UnlockMessage(e) then 1 else 0)
  {
    if ev == LockMessage(e) {
      LockAdds(cfg, s, e);
    } else if ev == UnlockMessage(e) {
      UnlockReturns(cfg, s, e);
    } else {
      OthersKeepLocks(cfg, s, ev, e);
    }
  }

  /** Over every run the reference count is the locks at the start and those taken since, less those
      returned, plus the one of the client that holds the element or of the pump. */
  lemma {:induction false} LocksBalance(cfg: Config, s: Sys, evs: seq<Event>, e: nat)
    requires Inv(cfg, s) && DisciplinedRun(cfg, s, evs) && e < cfg.elements
    ensures var t := After(cfg, s, evs);
            && t.locks[e] == s.locks[e] + Taken(cfg, s, evs, e) - Returned(evs, e)
            && t.p.hdr[e].refCnt == s.locks[e] + Taken(cfg, s, evs, e) - Returned(evs, e)
                                    + if t.own[e] in {Free, Retained} then 0 else 1
    decreases |evs|
  {
    if |evs| > 0 {
      StepKeepsInv(cfg, s, evs[0]);
      LockStepBalance(cfg, s, evs[0], e);
      LocksBalance(cfg, Apply(cfg, s, evs[0]), evs[1..], e);
    } else {
      ReferenceCount(cfg, s, e);
    }
  }
}
