/** The dispatcher's calls on a board, received bytes included. */
module BoardCalls {
  import opened Options
  import opened Bytes
  import opened PumpModel
  import opened PumpInvariant
  import opened Calls
  import opened BoardModel
  import opened BoardRuns

  predicate ChangesSlots(be: BoardEvent, id: int) {
    be.Other? && Changes(be.ev, id)
  }

  lemma BoardStepLooks(cfg: Config, bd: Board, be: BoardEvent)
    requires BoardInv(cfg, bd) && Allowed(cfg, bd, be)
    ensures LooksStep(cfg, bd.sys, BoardStep(cfg, bd, be).sys)
  {
    BoardStepKeepsInv(cfg, bd, be);
    match be
    case Other(ev) => PumpLooks(cfg, bd.sys, ev);
    case Byte(b) =>
      BoardStepGrows(cfg, bd, be);
      QuietStep(cfg, bd.sys, Receive(cfg, bd, b).sys);
  }

  lemma BoardStepKeepsSlots(cfg: Config, bd: Board, be: BoardEvent, id: int)
    requires BoardInv(cfg, bd) && Allowed(cfg, bd, be) && !ChangesSlots(be, id) && Lookup(cfg, id).Some?
    ensures SysShape(cfg, BoardStep(cfg, bd, be).sys)
    ensures SlotsOf(cfg, BoardStep(cfg, bd, be).sys, id) == SlotsOf(cfg, bd.sys, id)
  {
    match be
    case Other(ev) => OthersKeepSlots(cfg, bd.sys, ev, id);
    case Byte(b) =>
  }

  /** Over every interleaved run of a board, a callback that stands in one slot of an id is called
      with exactly the messages of that id that its slot comes to see, in order, once each. */
  lemma {:induction false} BoardCallsAreMessages(cfg: Config, bd: Board, evs: seq<BoardEvent>,
                                                cb: Callback, id: int, i: nat)
    requires BoardInv(cfg, bd) && BoardRun(cfg, bd, evs) && Lookup(cfg, id).Some?
    requires forall be :: be in evs ==> !ChangesSlots(be, id)
    requires StandsAt(SlotsOf(cfg, bd.sys, id), cb, i)
    ensures Shows(bd.sys, BoardAfter(cfg, bd, evs).sys, cb, id, i)
    decreases |evs|
  {
    if |evs| == 0 {
      SeenIsPosted(cfg, bd.sys, i);
      NothingShown(bd.sys, bd.sys, cb, id, i);
    } else {
      BoardStepKeepsInv(cfg, bd, evs[0]);
      var m := BoardStep(cfg, bd, evs[0]);
      BoardStepLooks(cfg, bd, evs[0]);
      StepShows(cfg, bd.sys, m.sys, cb, id, i);
      BoardStepKeepsSlots(cfg, bd, evs[0], id);
      BoardCallsAreMessages(cfg, m, evs[1..], cb, id, i);
      ShowsAndThen(bd.sys, m.sys, BoardAfter(cfg, bd, evs).sys, cb, id, i);
    }
  }

  /** Every look of a run for an id finds the callback that stood in that slot at the start. */
  ghost predicate LooksFind(cfg: Config, s: Sys, t: Sys, id: int)
    requires SysShape(cfg, s) && Lookup(cfg, id).Some?
  {
    s.visits <= t.visits &&
    forall j :: |s.visits| <= j < |t.visits| && t.visits[j].id == id ==>
      t.visits[j].slot < RECEIVERS && t.visits[j].callback == SlotsOf(cfg, s, id)[t.visits[j].slot]
  }

  lemma {:induction false} BoardLooksFind(cfg: Config, bd: Board, evs: seq<BoardEvent>, id: int)
    requires BoardInv(cfg, bd) && BoardRun(cfg, bd, evs) && Lookup(cfg, id).Some?
    requires forall be :: be in evs ==> !ChangesSlots(be, id)
    ensures LooksFind(cfg, bd.sys, BoardAfter(cfg, bd, evs).sys, id)
    decreases |evs|
  {
    if |evs| > 0 {
      BoardStepKeepsInv(cfg, bd, evs[0]);
      var m := BoardStep(cfg, bd, evs[0]);
      BoardStepLooks(cfg, bd, evs[0]);
      BoardStepKeepsSlots(cfg, bd, evs[0], id);
      BoardLooksFind(cfg, m, evs[1..], id);
      LooksFindAndThen(cfg, bd.sys, m.sys, BoardAfter(cfg, bd, evs).sys, id);
    }
  }

  lemma LooksFindAndThen(cfg: Config, s: Sys, m: Sys, t: Sys, id: int)
    requires LooksStep(cfg, s, m) && SysShape(cfg, m) && Lookup(cfg, id).Some?
    requires SlotsOf(cfg, m, id) == SlotsOf(cfg, s, id) && LooksFind(cfg, m, t, id)
    ensures LooksFind(cfg, s, t, id)
  {
    forall j | |s.visits| <= j < |t.visits| && t.visits[j].id == id
      ensures t.visits[j].slot < RECEIVERS && t.visits[j].callback == SlotsOf(cfg, s, id)[t.visits[j].slot]
    {
      if j < |m.visits| {
        assert t.visits[j] == m.visits[j];
      }
    }
  }
}
