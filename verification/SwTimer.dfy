/** The software timer as the program runs it: one table of slots, changed in place. */
module SwTimer {
  import opened Options
  import opened TimerModel

  class SwTimer {
    const handles: array<Handle>
    var isHandlingClients: bool
    /** The callbacks made and the hardware intervals set up so far. */
    ghost var fired: seq<nat>
    ghost var setups: seq<int>

    ghost function Abs(): State
      reads this, handles
    {
      State(handles[..], isHandlingClients, fired, setups)
    }

    constructor ()
      ensures fresh(handles) && handles.Length == MAX_HANDLES
      ensures Abs() == State(seq(MAX_HANDLES, _ => EMPTY), false, [], []) && TableOk(Abs())
    {
      handles := new Handle[MAX_HANDLES](_ => EMPTY);
      isHandlingClients := false;
      fired, setups := [], [];
      new;
      assert handles[..] == seq(MAX_HANDLES, _ => EMPTY);
    }

    /** Lets `elapsed` ticks pass for every slot, calls what has run out, and finds the next
        deadline. */
    method UpdateClients(elapsed: nat) returns (nextInterval: int)
      requires !isHandlingClients
      modifies this, handles
      ensures handles[..] == Ticked(old(handles[..]), elapsed) && !isHandlingClients
      ensures fired == old(fired) + Fired(old(handles[..]), elapsed) && setups == old(setups)
      ensures nextInterval == NextInterval(handles[..])
    {
      nextInterval := FOREVER;
      isHandlingClients := true;
      ghost var before := handles[..];
      assert fired + [] == fired;
      var i := 0;
      while i < handles.Length
        invariant 0 <= i <= handles.Length
        invariant forall j :: 0 <= j < i ==> handles[j] == Tick(before[j], elapsed)
        invariant forall j :: i <= j < handles.Length ==> handles[j] == before[j]
        invariant fired == old(fired) + Fired(before[..i], elapsed) && setups == old(setups)
        invariant nextInterval == NextInterval(handles[..i])
      {
        assert before[..i + 1][..i] == before[..i];
        UpdateClient(i, elapsed);
        if handles[i].callback != NO_CALLBACK {
          nextInterval := Min(nextInterval, handles[i].tickCounter);
        }
        assert handles[..i + 1][..i] == handles[..i];
        i := i + 1;
      }
      assert before[..i] == before && handles[..i] == handles[..];
      isHandlingClients := false;
    }

    method UpdateClient(i: nat, elapsed: nat)
      requires i < handles.Length
      modifies this`fired, handles
      ensures handles[..] == old(handles[..])[i := Tick(old(handles[i]), elapsed)]
      ensures fired == old(fired) + if Fires(old(handles[i]), elapsed) then [old(handles[i]).callback] else []
    {
      if handles[i].callback != NO_CALLBACK {
        handles[i] := handles[i].(tickCounter := handles[i].tickCounter - elapsed);
        if 0 >= handles[i].tickCounter {
          var callback := handles[i].callback;
          if !handles[i].oneShot {
            handles[i] := handles[i].(tickCounter := handles[i].tickCounter + handles[i].interval);
            handles[i] := handles[i].(tickCounter := Max(handles[i].tickCounter, 0));
            handles[i] := handles[i].(tickCounter := Min(handles[i].tickCounter, handles[i].interval));
          } else {
            handles[i] := handles[i].(callback := NO_CALLBACK);
          }
          fired := fired + [callback];
        }
      }
    }

    method SetupTimer(nextInterval: int, least: int)
      modifies this`setups
      ensures setups == if nextInterval != FOREVER then old(setups) + [Max(nextInterval, least)] else old(setups)
    {
      if FOREVER != nextInterval {
        setups := setups + [Max(nextInterval, least)];
      }
    }

    method Trigger(elapsed: nat)
      modifies this, handles
      ensures Abs() == TimerModel.Trigger(old(Abs()), elapsed)
    {
      var nextInterval := FOREVER;
      if !isHandlingClients {
        nextInterval := UpdateClients(elapsed);
      }
      SetupTimer(nextInterval, 40);
    }

    /** Finds the callback's own slot, or else the first empty one. */
    method FindSlot(cb: nat) returns (slot: Option<nat>)
      requires cb != NO_CALLBACK
      ensures slot == SlotFor(handles[..], cb)
    {
      var freeSlot := handles.Length;
      var i := 0;
      while i < handles.Length
        invariant 0 <= i <= handles.Length
        invariant IndexOf(handles[..], cb, i) == IndexOf(handles[..], cb, 0)
        invariant freeSlot == handles.Length ==>
                    IndexOf(handles[..], NO_CALLBACK, i) == IndexOf(handles[..], NO_CALLBACK, 0)
        invariant freeSlot != handles.Length ==> IndexOf(handles[..], NO_CALLBACK, 0) == Some(freeSlot)
      {
        if freeSlot == handles.Length && handles[i].callback == NO_CALLBACK {
          freeSlot := i;
        } else if cb == handles[i].callback {
          return Some(i);
        }
        i := i + 1;
      }
      slot := if freeSlot != handles.Length then Some(freeSlot) else None;
    }

    method RegisterOnTimerUS(cb: nat, ticks: nat, start: nat, elapsed: nat, oneShot: bool) returns (ret: bool)
      modifies this, handles
      ensures Abs() == Register(old(Abs()), cb, ticks, start, elapsed, oneShot)
      ensures ret <==> cb != NO_CALLBACK && SlotFor(old(handles[..]), cb).Some?
    {
      ret := false;
      if cb != NO_CALLBACK {
        var slot := FindSlot(cb);
        if slot.Some? {
          handles[slot.value] := Handle(cb, ticks, (ticks + start) % UINT32, oneShot);
          ret := true;
        }
        assert handles[..] == Entered(old(handles[..]), cb, ticks, start, oneShot);
        var nextInterval := FOREVER;
        if !isHandlingClients {
          nextInterval := UpdateClients(elapsed);
        }
        SetupTimer(nextInterval, 4);
      }
    }

    method UnRegisterFromTimer(cb: nat) returns (ret: bool)
      modifies handles
      ensures Abs() == Unregister(old(Abs()), cb)
      ensures ret <==> cb != NO_CALLBACK && IndexOf(old(handles[..]), cb, 0).Some?
    {
      ret := false;
      if cb != NO_CALLBACK {
        var i := 0;
        while i < handles.Length
          invariant 0 <= i <= handles.Length && !ret && unchanged(handles)
          invariant IndexOf(handles[..], cb, i) == IndexOf(handles[..], cb, 0)
        {
          if cb == handles[i].callback {
            handles[i] := handles[i].(callback := NO_CALLBACK);
            ret := true;
            assert handles[..] == Removed(old(handles[..]), cb);
            break;
          }
          i := i + 1;
        }
      }
    }
  }
}
