/** The message pump as the program runs it: headers, element data, receiver slots and the ring
    are fixed-size buffers changed in place. The ghost ledger is that of `PumpModel.Sys`. */
module Pump {
  import opened Bytes
  import opened Options
  import opened Search
  import opened PumpModel

  class MsgPump {
    const cfg: Config
    const hdr: array<Header>
    const data: array<seq<byte>>
    const receivers: array<seq<Callback>>
    const queue: array<Entry>
    var table: map<int, nat>
    var front: nat
    var tail: nat
    var size: nat
    /** The dispatcher's place in its loop body. */
    var pc: Pc

    ghost var own: seq<Owner>
    ghost var locks: seq<nat>
    ghost var posted: seq<Message>
    ghost var done: nat
    ghost var visits: seq<Visit>

    /** What `Abs` shows of a pump whose parts are as initialisation leaves them. */
    ghost predicate Blank()
      reads this, hdr, data, receivers, queue
    {
      && hdr.Length == data.Length == cfg.elements
      && (forall e :: 0 <= e < hdr.Length ==> hdr[e] == Header(MAGIC, 0, Nothing))
      && receivers.Length == |cfg.pools|
      && (forall k :: 0 <= k < receivers.Length ==> receivers[k] == NO_RECEIVERS)
      && queue.Length == QUEUE_MAX
      && (forall j :: 0 <= j < queue.Length ==> queue[j] == Entry(0, 0, 0))
    }

    lemma BlankIsInitial()
      requires WellFormed(cfg) && Blank()
      requires own == seq(cfg.elements, _ => Owner.Free) && locks == seq(cfg.elements, _ => 0)
      requires forall k :: 0 <= k < |cfg.pools| ==> PoolData(data[..], cfg.pools[k])
      requires front == tail == size == 0 && pc == Idle
      requires posted == [] && done == 0 && visits == []
      ensures IsInitial(cfg, Abs())
    {
      InitialFrom(cfg, Abs());
    }

    ghost function Bits(): PumpModel.Pump
      reads this, hdr, data, receivers, queue
    {
      PumpModel.Pump(hdr[..], data[..], receivers[..], queue[..], front, tail, size, pc)
    }

    ghost function Abs(): Sys
      reads this, hdr, data, receivers, queue
    {
      Sys(Bits(), own, locks, posted, done, visits)
    }

    ghost predicate Valid()
      reads this, hdr, data, receivers, queue
    {
      && WellFormed(cfg)
      && data as object != receivers as object
      && table == Table(cfg.pools)
      && SysShape(cfg, Abs())
    }

    /** Initialisation: every pool enters the id table, every header gets its magic number. */
    constructor (cfg: Config)
      requires WellFormed(cfg)
      ensures Valid() && this.cfg == cfg && IsInitial(cfg, Abs())
      ensures fresh(hdr) && fresh(data) && fresh(receivers) && fresh(queue)
    {
      this.cfg := cfg;
      hdr := new Header[cfg.elements];
      data := new seq<byte>[cfg.elements];
      receivers := new seq<Callback>[|cfg.pools|];
      queue := new Entry[QUEUE_MAX];
      front, tail, size, pc := 0, 0, 0, Idle;
      table := map[];
      own := seq(cfg.elements, _ => Owner.Free);
      locks := seq(cfg.elements, _ => 0);
      posted, done, visits := [], 0, [];
      new;
      Initialise();
    }

    method Initialise()
      requires WellFormed(cfg) && hdr.Length == data.Length == cfg.elements
      requires receivers.Length == |cfg.pools| && queue.Length == QUEUE_MAX
      requires data as object != receivers as object
      requires own == seq(cfg.elements, _ => Owner.Free) && locks == seq(cfg.elements, _ => 0)
      requires front == tail == size == 0 && pc == Idle
      requires posted == [] && done == 0 && visits == []
      modifies this`table, hdr, data, receivers, queue
      ensures Valid() && IsInitial(cfg, Abs())
    {
      ClearMemory();
      InitPools();
      assert Blank();
      BlankIsInitial();
    }

    method ClearMemory()
      requires WellFormed(cfg) && hdr.Length == data.Length == cfg.elements
      requires receivers.Length == |cfg.pools| && queue.Length == QUEUE_MAX
      requires data as object != receivers as object
      modifies hdr, receivers, queue
      ensures Blank()
    {
      forall e | 0 <= e < hdr.Length {
        hdr[e] := Header(MAGIC, 0, Nothing);
      }
      forall k | 0 <= k < receivers.Length {
        receivers[k] := NO_RECEIVERS;
      }
      forall j | 0 <= j < queue.Length {
        queue[j] := Entry(0, 0, 0);
      }
    }

    method InitPools()
      requires WellFormed(cfg) && data.Length == cfg.elements
      modifies this`table, data
      ensures table == Table(cfg.pools)
      ensures forall k :: 0 <= k < |cfg.pools| ==> PoolData(data[..], cfg.pools[k])
    {
      table := map[];
      var k := 0;
      while k < |cfg.pools|
        invariant 0 <= k <= |cfg.pools|
        invariant table == Table(cfg.pools[..k])
        invariant forall j :: 0 <= j < k ==> PoolData(data[..], cfg.pools[j])
      {
        ClearPool(k);
        assert cfg.pools[..k + 1][..k] == cfg.pools[..k];
        table := table[cfg.pools[k].id := k];
        k := k + 1;
      }
      assert cfg.pools[..k] == cfg.pools;
    }

    method ClearPool(k: nat)
      requires WellFormed(cfg) && data.Length == cfg.elements && k < |cfg.pools|
      requires forall j :: 0 <= j < k ==> PoolData(data[..], cfg.pools[j])
      modifies data
      ensures forall j :: 0 <= j <= k ==> PoolData(data[..], cfg.pools[j])
    {
      var pool := cfg.pools[k];
      assert PoolOk(cfg, pool);
      ghost var before := data[..];
      forall e | pool.base <= e < pool.base + pool.amount {
        data[e] := seq(pool.msgSize, _ => 0);
      }
      forall j | 0 <= j < k
        ensures PoolData(data[..], cfg.pools[j])
      {
        assert PoolsApart(cfg, cfg.pools[j], pool);
        assert PoolData(before, cfg.pools[j]);
      }
    }

    method LockMessage(e: nat) returns (ok: bool)
      requires Valid() && e < cfg.elements
      modifies this`locks, hdr
      ensures Valid() && Abs() == LockStep(cfg, old(Abs()), e)
      ensures ok == CanLock(old(hdr[e]))
    {
      ghost var after := LockStep(cfg, Abs(), e);
      ApplyKeepsShape(cfg, Abs(), Event.LockMessage(e));
      ok := false;
      if hdr[e].refCnt < 255 && hdr[e].flags != BufferNotUsable && hdr[e].magic == MAGIC {
        hdr[e] := hdr[e].(refCnt := hdr[e].refCnt + 1);
        locks := locks[e := locks[e] + 1];
        ok := true;
        assert hdr[..] == after.p.hdr;
      }
      assert Abs() == after;
    }

    method UnlockMessage(e: nat) returns (ok: bool)
      requires Valid() && e < cfg.elements
      modifies this`locks, this`own, hdr
      ensures Valid() && Abs() == UnlockStep(cfg, old(Abs()), e)
      ensures ok == CanUnlock(old(hdr[e]))
    {
      ghost var before := Abs();
      ApplyKeepsShape(cfg, before, Event.UnlockMessage(e));
      ok := false;
      if hdr[e].refCnt > 0 && hdr[e].flags != BufferNotUsable && hdr[e].magic == MAGIC {
        hdr[e] := hdr[e].(refCnt := hdr[e].refCnt - 1);
        ok := true;
        ghost var after := UnlockStep(cfg, before, e);
        own, locks := after.own, after.locks;
        assert hdr[..] == after.p.hdr;
        assert Abs() == after;
      }
    }

    /** A client writes into the element it holds. */
    method Fill(ghost who: nat, e: nat, bytes: seq<byte>)
      requires Valid() && e < cfg.elements && |bytes| == |data[e]|
      modifies data
      ensures Valid() && Abs() == Apply(cfg, old(Abs()), Event.Fill(who, e, bytes))
    {
      ghost var before := Abs();
      ApplyKeepsShape(cfg, before, Event.Fill(who, e, bytes));
      data[e] := bytes;
      assert data[..] == before.p.data[e := bytes];
    }

    /** The search loop that acquiring and copying share: the first free element of a pool. A
        free element can always be locked, so the search never has to go on behind one. */
    method FindFree(pool: Pool) returns (r: Option<nat>)
      requires pool.base + pool.amount <= hdr.Length
      ensures r == FirstFree(hdr[..], pool.base, pool.base + pool.amount)
    {
      var i := 0;
      while i < pool.amount
        invariant 0 <= i <= pool.amount
        invariant FirstFree(hdr[..], pool.base + i, pool.base + pool.amount)
               == FirstFree(hdr[..], pool.base, pool.base + pool.amount)
      {
        var e := pool.base + i;
        if hdr[e].refCnt == 0 && hdr[e].flags == Nothing && hdr[e].magic == MAGIC {
          return Some(e);
        }
        i := i + 1;
      }
      r := None;
    }

    method GetFreeBuffer(ghost who: nat, id: int) returns (r: Option<nat>)
      requires Valid()
      modifies this`own, hdr
      ensures Valid() && Abs() == GetFreeStep(cfg, old(Abs()), who, id)
      ensures r == Acquirable(cfg, old(Abs()).p, id)
    {
      r := None;
      ghost var after := GetFreeStep(cfg, Abs(), who, id);
      ApplyKeepsShape(cfg, Abs(), GetFree(who, id));
      if id < LAST_ID && id > FIRST_ID {
        if id in table {
          var pool := cfg.pools[table[id]];
          assert PoolOk(cfg, pool);
          r := FindFree(pool);
          if r.Some? {
            var e := r.value;
            hdr[e] := hdr[e].(refCnt := hdr[e].refCnt + 1);
            hdr[e] := hdr[e].(flags := InUse);
            own := own[e := Held(who)];
            assert hdr[..] == after.p.hdr;
          }
        }
      }
      assert Abs() == after;
    }

    method Enqueue(id: int, e: nat, k: nat)
      requires |queue[..]| == QUEUE_MAX && tail < QUEUE_MAX
      modifies this`tail, this`size, queue
      ensures Bits() == PumpModel.Enqueue(old(Bits()), Entry(id, e, k))
    {
      queue[tail] := Entry(id, e, k);
      tail := (tail + 1) % QUEUE_MAX;
      size := size + 1;
    }

    method PostMessage(id: int, addr: int, bytes: seq<byte>) returns (ok: bool)
      requires Valid() && PostCallable(cfg, id, addr, bytes)
      modifies this`own, this`posted, this`tail, this`size, hdr, data, queue
      ensures Valid() && Abs() == PostStep(cfg, old(Abs()), id, addr, bytes)
      ensures ok == Post(cfg, old(Abs()).p, id, addr, bytes).element.Some?
    {
      ghost var before := Abs();
      PostKeepsShape(cfg, before.p, id, addr, bytes);
      ok := false;
      if front == tail && size != 0 {
        return;
      }
      if id < LAST_ID {
        var k := table[id];
        var pool := cfg.pools[k];
        assert PoolOk(cfg, pool) && InMemory(cfg, pool);
        var off := Int32(addr - pool.addr);
        var len := Int32(pool.amount * (cfg.overhead + pool.msgSize));
        if off >= cfg.overhead && off < len {
          var stride := UInt16(cfg.overhead + pool.msgSize);
          if stride != 0 && off % stride == cfg.overhead {
            var i := off / stride;
            ClassifyIff(cfg, pool, addr, i);
            ok := PostOwn(id, k, pool.base + i);
          }
        } else {
          ok := PostForeign(id, k, bytes);
        }
      }
    }

    method PostOwn(id: int, k: nat, e: nat) returns (ok: bool)
      requires Valid() && e < cfg.elements && k < |cfg.pools|
      modifies this`own, this`posted, this`tail, this`size, hdr, queue
      ensures Valid() && Abs() == Ledger(old(Abs()), id, PostElement(old(Abs()).p, id, k, e))
      ensures ok == PostElement(old(Abs()).p, id, k, e).element.Some?
    {
      ghost var after := Ledger(Abs(), id, PostElement(Abs().p, id, k, e));
      PostElementKeepsShape(cfg, Abs().p, id, k, e);
      if hdr[e].refCnt == 1 && hdr[e].flags == InUse && hdr[e].magic == MAGIC {
        hdr[e] := hdr[e].(flags := PostedNotDispatched);
        Enqueue(id, e, k);
        own := own[e := Queued];
        posted := posted + [Message(id, e, data[e])];
        ok := true;
      } else {
        hdr[e] := Header(MAGIC, 0, Nothing);
        ok := false;
      }
      assert hdr[..] == after.p.hdr;
      assert Abs() == after;
    }

    method CopyInto(id: int, k: nat, e: nat, bytes: seq<byte>)
      requires e < hdr.Length == data.Length && queue.Length == QUEUE_MAX && tail < QUEUE_MAX
      requires data as object != receivers as object && IsFree(hdr[e])
      modifies this`tail, this`size, hdr, data, queue
      ensures Bits() == PumpModel.CopyInto(old(Bits()), id, k, e, bytes)
    {
      ghost var before := Bits();
      hdr[e] := hdr[e].(refCnt := hdr[e].refCnt + 1);
      hdr[e] := hdr[e].(flags := PostedNotDispatched);
      data[e] := bytes;
      assert data[..] == before.data[e := bytes];
      Enqueue(id, e, k);
    }

    method PostForeign(id: int, k: nat, bytes: seq<byte>) returns (ok: bool)
      requires Valid() && k < |cfg.pools| && PoolOk(cfg, cfg.pools[k]) && |bytes| >= cfg.pools[k].msgSize
      modifies this`own, this`posted, this`tail, this`size, hdr, data, queue
      ensures Valid()
      ensures Abs() == Ledger(old(Abs()), id, PostCopy(old(Abs()).p, id, k, cfg.pools[k], bytes))
      ensures ok == PostCopy(old(Abs()).p, id, k, cfg.pools[k], bytes).element.Some?
    {
      ghost var result := PostCopy(Bits(), id, k, cfg.pools[k], bytes);
      ghost var after := Ledger(Abs(), id, result);
      PostCopyKeepsShape(cfg, Bits(), id, k, bytes);
      var r := FindFree(cfg.pools[k]);
      assert r == result.element;
      ok := r.Some?;
      if r.Some? {
        CopyInto(id, k, r.value, bytes[..cfg.pools[k].msgSize]);
        own := own[r.value := Queued];
        posted := posted + [Message(id, r.value, data[r.value])];
      }
      assert Abs() == after;
    }

    // ---- Receivers ----

    method RegisterOnMessage(id: int, cb: Callback) returns (ok: bool)
      requires Valid()
      modifies receivers
      ensures Valid() && Abs() == Apply(cfg, old(Abs()), RegisterOn(id, cb))
      ensures ok <==> FIRST_ID <= id < LAST_ID && cb != NO_CALLBACK && Lookup(cfg, id).Some? &&
                      RegisterSlot(old(receivers[Lookup(cfg, id).value]), cb, 0).Some?
    {
      ghost var before := Abs();
      ghost var after := Apply(cfg, before, RegisterOn(id, cb));
      ApplyKeepsShape(cfg, before, RegisterOn(id, cb));
      ok := false;
      if id < LAST_ID && id >= FIRST_ID && cb != NO_CALLBACK {
        if id in table {
          var k := table[id];
          var slots := receivers[k];
          var i := 0;
          while i < RECEIVERS
            invariant 0 <= i <= RECEIVERS && !ok && receivers[k] == slots && |slots| == RECEIVERS
            invariant Abs() == before
            invariant RegisterSlot(slots, cb, i) == RegisterSlot(slots, cb, 0)
          {
            if slots[i] == NO_CALLBACK || slots[i] == cb {
              receivers[k] := slots[i := cb];
              ok := true;
              assert receivers[..] == after.p.receivers;
              return;
            }
            i := i + 1;
          }
        }
      }
    }

    /** The returned flag is always false. */
    method UnregisterFromMessage(id: int, cb: Callback) returns (ok: bool)
      requires Valid() && Callable(cfg, Abs(), UnregisterFrom(id, cb))
      modifies receivers
      ensures Valid() && Abs() == Apply(cfg, old(Abs()), UnregisterFrom(id, cb))
      ensures !ok
    {
      ghost var before := Abs();
      ghost var after := Apply(cfg, before, UnregisterFrom(id, cb));
      ApplyKeepsShape(cfg, before, UnregisterFrom(id, cb));
      ok := false;
      if id < LAST_ID && cb != NO_CALLBACK {
        var k := table[id];
        var slots := receivers[k];
        var i := 0;
        while i < RECEIVERS
          invariant 0 <= i <= RECEIVERS && receivers[k] == slots && |slots| == RECEIVERS
          invariant Abs() == before
          invariant FirstIndex(slots, cb, i) == FirstIndex(slots, cb, 0)
        {
          if cb == slots[i] {
            receivers[k] := slots[i := NO_CALLBACK];
            assert receivers[..] == after.p.receivers;
            return;
          }
          i := i + 1;
        }
      }
    }

    // ---- The dispatcher, one step at a time ----

    method StartFront()
      requires Valid() && pc == Idle && size != 0
      modifies this`pc, this`own, hdr
      ensures Valid() && Abs() == DispatchStep(cfg, old(Abs()))
    {
      ghost var after := DispatchStep(cfg, Abs());
      DispatchKeepsShape(cfg, Abs());
      var e := queue[front].buffer;
      hdr[e] := hdr[e].(flags := InUse);
      own := own[e := Dispatching];
      pc := Calling(0);
      assert hdr[..] == after.p.hdr;
      assert Abs() == after;
    }

    /** Looks at the next receiver slot; `cb` is the callback to be called, if there is one. */
    method CallSlot() returns (cb: Callback, id: int, bytes: seq<byte>)
      requires Valid() && pc.Calling? && pc.slot < RECEIVERS
      modifies this`pc, this`visits
      ensures Valid() && Abs() == DispatchStep(cfg, old(Abs()))
      ensures visits == old(visits) + [Visit(old(pc).slot, cb, id, bytes)]
    {
      ghost var after := DispatchStep(cfg, Abs());
      DispatchKeepsShape(cfg, Abs());
      var m := queue[front];
      cb := receivers[m.pool][pc.slot];
      id := cfg.pools[m.pool].id;
      bytes := data[m.buffer];
      visits := visits + [Visit(pc.slot, cb, id, bytes)];
      pc := Calling(pc.slot + 1);
      assert Bits() == after.p;
      assert Abs() == after;
    }

    method FinishFront()
      requires Valid() && pc == Calling(RECEIVERS)
      modifies this`pc, hdr
      ensures Valid() && Abs() == DispatchStep(cfg, old(Abs()))
    {
      ghost var after := DispatchStep(cfg, Abs());
      DispatchKeepsShape(cfg, Abs());
      var e := queue[front].buffer;
      hdr[e] := hdr[e].(flags := Nothing);
      pc := Ended;
      assert hdr[..] == after.p.hdr;
      assert Abs() == after;
    }

    method ReleaseFront()
      requires Valid() && pc == Ended
      modifies this`pc, this`own, hdr
      ensures Valid() && Abs() == DispatchStep(cfg, old(Abs()))
    {
      ghost var after := DispatchStep(cfg, Abs());
      DispatchKeepsShape(cfg, Abs());
      var e := queue[front].buffer;
      if hdr[e].refCnt > 0 && hdr[e].flags != BufferNotUsable && hdr[e].magic == MAGIC {
        hdr[e] := hdr[e].(refCnt := hdr[e].refCnt - 1);
      }
      own := own[e := if locks[e] > 0 then Retained else Owner.Free];
      pc := Released;
      assert hdr[..] == after.p.hdr;
      assert Abs() == after;
    }

    method PopFront()
      requires Valid() && pc == Released
      modifies this`pc, this`front, this`size, this`done
      ensures Valid() && Abs() == DispatchStep(cfg, old(Abs()))
    {
      ghost var after := DispatchStep(cfg, Abs());
      DispatchKeepsShape(cfg, Abs());
      front := (front + 1) % QUEUE_MAX;
      size := size - 1;
      done := done + 1;
      pc := Idle;
      assert Bits() == after.p;
      assert Abs() == after;
    }

    /** The callback loop of one message: one look at each receiver slot. */
    method CallReceivers()
      requires Valid() && pc == Calling(0)
      modifies this`pc, this`visits
      ensures Valid() && pc == Calling(RECEIVERS)
      ensures Abs() == DispatchSteps(cfg, old(Abs()), RECEIVERS)
    {
      ghost var s0 := Abs();
      var i := 0;
      while i < RECEIVERS
        invariant 0 <= i <= RECEIVERS && Valid() && pc == Calling(i)
        invariant DispatchSteps(cfg, Abs(), RECEIVERS - i) == DispatchSteps(cfg, s0, RECEIVERS)
      {
        var cb, id, bytes := CallSlot();
        i := i + 1;
      }
    }

    /** What follows the callbacks of one message. */
    method EndFront()
      requires Valid() && pc == Calling(RECEIVERS)
      modifies this`pc, this`own, this`front, this`size, this`done, hdr
      ensures Valid() && pc == Idle
      ensures Abs() == DispatchEnd(cfg, old(Abs()))
    {
      FinishFront();
      ReleaseFront();
      PopFront();
    }

    /** One round of the dispatch loop when nothing else interleaves. */
    method PumpMessage()
      requires Valid() && pc == Idle
      modifies this`pc, this`own, this`front, this`size, this`done, this`visits, hdr
      ensures Valid() && pc == Idle
      ensures Abs() == if old(size) == 0 then old(Abs()) else DispatchRound(cfg, old(Abs()))
    {
      if size != 0 {
        ghost var s0 := Abs();
        StartFront();
        CallReceivers();
        ghost var s1 := Abs();
        assert s1 == DispatchCalls(cfg, s0);
        EndFront();
      }
    }
  }
}
