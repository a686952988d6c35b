/** The message pump as a state machine: reference-counted elements in fixed pools, a ring
    queue of references to them, and a dispatcher whose work on one message is several steps
    between which anything else may happen. Every step is a function of the state, so that
    whole runs can be talked about; the class `MsgPump` performs the same steps in place. */
module PumpModel {
  import opened Arithmetic
  import opened Bytes
  import opened Options
  import opened Search

  const QUEUE_MAX := 16
  const RECEIVERS := 4
  const MAGIC := 0xDEADBEEF
  const FIRST_ID := -3
  const LAST_ID := 7
  const NO_CALLBACK: Callback := 0

  const NO_RECEIVERS: seq<Callback> := [NO_CALLBACK, NO_CALLBACK, NO_CALLBACK, NO_CALLBACK]

  /** Pointers are 32 bits wide, and so are their differences. */
  const ADDRESSES := 0x1_0000_0000

  type Callback = nat

  datatype Flag = Nothing | PostedNotDispatched | InUse | BufferNotUsable

  datatype Header = Header(magic: int, refCnt: byte, flags: Flag)

  /** A pool of `amount` elements at address `addr`, each a header and `msgSize` payload bytes.
      Its elements are numbered `base`, `base + 1`, ... among the elements of all pools. */
  datatype Pool = Pool(id: int, addr: int, msgSize: nat, amount: nat, base: nat)

  datatype Config = Config(overhead: nat, elements: nat, pools: seq<Pool>)

  datatype Entry = Entry(id: int, buffer: nat, pool: nat)

  /** Where the dispatcher stands in its treatment of the front entry: before it, about to look
      at a receiver slot, behind the callbacks with the flag cleared, or behind the unlock. */
  datatype Pc = Idle | Calling(slot: nat) | Ended | Released

  datatype Pump = Pump(hdr: seq<Header>, data: seq<seq<byte>>, receivers: seq<seq<Callback>>,
                       queue: seq<Entry>, front: nat, tail: nat, size: nat, pc: Pc)

  // ---- Pools and pointers ----

  function Stride(cfg: Config, p: Pool): nat {
    cfg.overhead + p.msgSize
  }

  function PayloadAddr(cfg: Config, p: Pool, i: nat): int {
    p.addr + i * Stride(cfg, p) + cfg.overhead
  }

  ghost predicate WellFormed(cfg: Config) {
    && cfg.overhead > 0 && cfg.elements > 0 && |cfg.pools| > 0
    && (forall k {:trigger PoolOk(cfg, cfg.pools[k])} :: 0 <= k < |cfg.pools| ==> PoolOk(cfg, cfg.pools[k]))
    && (forall k {:trigger InMemory(cfg, cfg.pools[k])} :: 0 <= k < |cfg.pools| ==> InMemory(cfg, cfg.pools[k]))
    && (forall j, k {:trigger PoolsApart(cfg, cfg.pools[j], cfg.pools[k])} ::
          0 <= j < k < |cfg.pools| ==> PoolsApart(cfg, cfg.pools[j], cfg.pools[k]))
  }

  function PoolSize(cfg: Config, p: Pool): nat {
    p.amount * Stride(cfg, p)
  }

  /** Pools are declared with their message size rounded up to a multiple of 4. */
  predicate PoolOk(cfg: Config, p: Pool) {
    && FIRST_ID <= p.id < LAST_ID
    && 0 < p.msgSize < 0x10000 && p.msgSize % 4 == 0
    && p.base + p.amount <= cfg.elements
  }

  /** The size of an element with its header fits 16 bits, and the pool lies in memory. */
  predicate InMemory(cfg: Config, p: Pool) {
    && Stride(cfg, p) < 0x10000
    && PoolSize(cfg, p) < ADDRESSES / 2
    && 0 <= p.addr <= ADDRESSES - PoolSize(cfg, p)
  }

  predicate PoolsApart(cfg: Config, p: Pool, q: Pool) {
    && p.id != q.id
    && (p.base + p.amount <= q.base || q.base + q.amount <= p.base)
    && (p.addr + PoolSize(cfg, p) <= q.addr || q.addr + PoolSize(cfg, q) <= p.addr)
  }

  /** The id table that initialisation fills, one pool after the other. */
  function Table(pools: seq<Pool>): (t: map<int, nat>)
    ensures forall id :: id in t ==> t[id] < |pools| && pools[t[id]].id == id
    ensures forall k :: 0 <= k < |pools| ==> pools[k].id in t
  {
    if |pools| == 0 then map[]
    else Table(pools[..|pools| - 1])[pools[|pools| - 1].id := |pools| - 1]
  }

  function Lookup(cfg: Config, id: int): (k: Option<nat>)
    ensures k.Some? ==> k.value < |cfg.pools| && cfg.pools[k.value].id == id
    ensures k.None? <==> forall j :: 0 <= j < |cfg.pools| ==> cfg.pools[j].id != id
  {
    var t := Table(cfg.pools);
    if id in t then Some(t[id]) else None
  }

  /** Ids are unique. */
  lemma SameID(cfg: Config, j: nat, k: nat)
    requires WellFormed(cfg) && j < |cfg.pools| && k < |cfg.pools|
    ensures cfg.pools[j].id == cfg.pools[k].id <==> j == k
  {
    if j < k {
      assert PoolsApart(cfg, cfg.pools[j], cfg.pools[k]);
    } else if k < j {
      assert PoolsApart(cfg, cfg.pools[k], cfg.pools[j]);
    }
  }

  /** So every pool is found under its id. */
  lemma LookupOwn(cfg: Config, k: nat)
    requires WellFormed(cfg) && k < |cfg.pools|
    ensures Lookup(cfg, cfg.pools[k].id) == Some(k)
  {
    SameID(cfg, Lookup(cfg, cfg.pools[k].id).value, k);
  }

  /** How post reads the message pointer, by its offset into the pool's memory. */
  datatype Target = Outside | Misaligned | Element(i: nat)

  /** The value of a difference of two 32-bit numbers in a signed 32-bit variable. */
  function Int32(x: int): int {
    if x >= ADDRESSES / 2 then x - ADDRESSES
    else if x < -(ADDRESSES / 2) then x + ADDRESSES
    else x
  }

  /** The value in an unsigned 16-bit variable. */
  function UInt16(x: nat): nat {
    if x < 0x10000 then x else x % 0x10000
  }

  /** The offset and the pool's length are 32-bit variables, the element size a 16-bit one. */
  function Classify(cfg: Config, p: Pool, addr: int): Target
    requires cfg.overhead > 0
  {
    var off, stride := Int32(addr - p.addr), UInt16(Stride(cfg, p));
    if off >= cfg.overhead && off < Int32(PoolSize(cfg, p)) then
      if stride != 0 && off % stride == cfg.overhead then Element(off / stride) else Misaligned
    else Outside
  }

  /** None of this truncates for a pool that lies in memory. */
  lemma ClassifyIsExact(cfg: Config, p: Pool, addr: int)
    requires cfg.overhead > 0 && PoolOk(cfg, p) && InMemory(cfg, p) && 0 <= addr < ADDRESSES
    ensures var off, n := addr - p.addr, Stride(cfg, p);
            Classify(cfg, p, addr) ==
            if cfg.overhead <= off < PoolSize(cfg, p) then
              if off % n == cfg.overhead then Element(off / n) else Misaligned
            else Outside
  {
  }

  lemma PayloadInPool(cfg: Config, p: Pool, i: nat)
    requires i < p.amount
    ensures p.addr + cfg.overhead <= PayloadAddr(cfg, p, i)
    ensures PayloadAddr(cfg, p, i) + p.msgSize <= p.addr + PoolSize(cfg, p)
    ensures InMemory(cfg, p) && p.msgSize > 0 ==> 0 <= PayloadAddr(cfg, p, i) < ADDRESSES
  {
    MulMono(i + 1, p.amount, Stride(cfg, p));
    MulNext(i, Stride(cfg, p));
    MulMono(0, i, Stride(cfg, p));
  }

  lemma PlaceIff(off: int, n: nat, overhead: nat, amount: nat, i: nat)
    requires 0 < overhead < n
    ensures (overhead <= off < amount * n && off % n == overhead && off / n == i) <==>
            (i < amount && off == i * n + overhead)
  {
    if i < amount && off == i * n + overhead {
      DivModUnique(i, n, overhead);
      MulMono(i + 1, amount, n);
      MulNext(i, n);
      MulMono(0, i, n);
    }
    if overhead <= off < amount * n && off % n == overhead && off / n == i {
      assert off == (off / n) * n + off % n;
      if i >= amount {
        MulMono(amount, i, n);
        assert false;
      }
    }
  }

  /** Pointer classification: post takes an address for an element exactly when it is the
      payload start of that element of the pool. */
  lemma ClassifyIff(cfg: Config, p: Pool, addr: int, i: nat)
    requires cfg.overhead > 0 && PoolOk(cfg, p) && InMemory(cfg, p) && 0 <= addr < ADDRESSES
    ensures Classify(cfg, p, addr) == Element(i) <==> i < p.amount && addr == PayloadAddr(cfg, p, i)
  {
    ClassifyIsExact(cfg, p, addr);
    PlaceIff(addr - p.addr, Stride(cfg, p), cfg.overhead, p.amount, i);
  }

  /** The payload ranges of distinct elements of a pool do not overlap. */
  lemma ElementsApart(cfg: Config, p: Pool, i: nat, j: nat)
    requires i < j
    ensures PayloadAddr(cfg, p, i) + p.msgSize + cfg.overhead <= PayloadAddr(cfg, p, j)
  {
    MulMono(i + 1, j, Stride(cfg, p));
    MulNext(i, Stride(cfg, p));
  }

  /** A pointer into the payload of another pool's element is not taken for this pool's. */
  lemma ForeignPointerIsOutside(cfg: Config, p: Pool, q: Pool, i: nat, k: nat)
    requires cfg.overhead > 0 && PoolOk(cfg, p) && PoolOk(cfg, q) && InMemory(cfg, p) && InMemory(cfg, q)
    requires PoolsApart(cfg, p, q) || PoolsApart(cfg, q, p)
    requires i < q.amount && k < q.msgSize
    ensures 0 <= PayloadAddr(cfg, q, i) + k < ADDRESSES
    ensures Classify(cfg, p, PayloadAddr(cfg, q, i) + k) == Outside
  {
    PayloadInPool(cfg, q, i);
    ClassifyIsExact(cfg, p, PayloadAddr(cfg, q, i) + k);
  }

  // ---- The pump's own operations ----

  predicate PoolData(data: seq<seq<byte>>, pool: Pool) {
    && pool.base + pool.amount <= |data|
    && forall e :: pool.base <= e < pool.base + pool.amount ==> |data[e]| == pool.msgSize
  }

  predicate QueueOk(cfg: Config, queue: seq<Entry>) {
    && |queue| == QUEUE_MAX
    && forall j :: 0 <= j < QUEUE_MAX ==> queue[j].buffer < cfg.elements && queue[j].pool < |cfg.pools|
  }

  /** The sizes of things, which no step changes. */
  ghost predicate Shape(cfg: Config, p: Pump) {
    && |p.hdr| == cfg.elements && |p.data| == cfg.elements
    && |p.receivers| == |cfg.pools|
    && (forall k :: 0 <= k < |p.receivers| ==> |p.receivers[k]| == RECEIVERS)
    && QueueOk(cfg, p.queue)
    && p.front < QUEUE_MAX && p.tail < QUEUE_MAX
    && (p.pc != Idle ==> p.size > 0)
    && (forall k :: 0 <= k < |cfg.pools| ==> PoolData(p.data, cfg.pools[k]))
  }

  lemma FillKeepsPoolData(data: seq<seq<byte>>, pool: Pool, e: nat, bytes: seq<byte>)
    requires PoolData(data, pool) && e < |data| && |bytes| == |data[e]|
    ensures PoolData(data[e := bytes], pool)
  {
  }

  lemma FillKeepsShape(cfg: Config, p: Pump, e: nat, bytes: seq<byte>)
    requires Shape(cfg, p) && e < cfg.elements && |bytes| == |p.data[e]|
    ensures Shape(cfg, p.(data := p.data[e := bytes]))
  {
    forall k | 0 <= k < |cfg.pools|
      ensures PoolData(p.data[e := bytes], cfg.pools[k])
    {
      FillKeepsPoolData(p.data, cfg.pools[k], e, bytes);
    }
  }

  predicate IsFree(h: Header) {
    h.refCnt == 0 && h.magic == MAGIC && h.flags == Nothing
  }

  /** The first free element in `[lo, hi)`. */
  function FirstFree(hdr: seq<Header>, lo: nat, hi: nat): (r: Option<nat>)
    requires lo <= hi <= |hdr|
    ensures r.Some? ==> lo <= r.value < hi && IsFree(hdr[r.value]) &&
                        forall e :: lo <= e < r.value ==> !IsFree(hdr[e])
    ensures r.None? ==> forall e :: lo <= e < hi ==> !IsFree(hdr[e])
    decreases hi - lo
  {
    if lo == hi then None
    else if IsFree(hdr[lo]) then Some(lo)
    else FirstFree(hdr, lo + 1, hi)
  }

  predicate CanLock(h: Header) {
    h.refCnt < 255 && h.flags != BufferNotUsable && h.magic == MAGIC
  }

  predicate CanUnlock(h: Header) {
    h.refCnt > 0 && h.flags != BufferNotUsable && h.magic == MAGIC
  }

  function LockElement(p: Pump, e: nat): Pump
    requires e < |p.hdr|
  {
    if CanLock(p.hdr[e]) then p.(hdr := p.hdr[e := p.hdr[e].(refCnt := p.hdr[e].refCnt + 1)]) else p
  }

  function UnlockElement(p: Pump, e: nat): Pump
    requires e < |p.hdr|
  {
    if CanUnlock(p.hdr[e]) then p.(hdr := p.hdr[e := p.hdr[e].(refCnt := p.hdr[e].refCnt - 1)]) else p
  }

  function SetFlag(p: Pump, e: nat, flag: Flag): Pump
    requires e < |p.hdr|
  {
    p.(hdr := p.hdr[e := p.hdr[e].(flags := flag)])
  }

  function Enqueue(p: Pump, entry: Entry): Pump
    requires p.tail < |p.queue|
  {
    p.(queue := p.queue[p.tail := entry], tail := (p.tail + 1) % QUEUE_MAX, size := p.size + 1)
  }

  predicate QueueFull(p: Pump) {
    p.front == p.tail && p.size != 0
  }

  /** The element that an acquisition for `id` would hand out. */
  ghost function Acquirable(cfg: Config, p: Pump, id: int): Option<nat>
    requires WellFormed(cfg) && Shape(cfg, p)
  {
    if id < LAST_ID && id > FIRST_ID && Lookup(cfg, id).Some? then
      var pool := cfg.pools[Lookup(cfg, id).value];
      assert PoolOk(cfg, pool);
      FirstFree(p.hdr, pool.base, pool.base + pool.amount)
    else None
  }

  function Acquire(p: Pump, e: nat): Pump
    requires e < |p.hdr|
  {
    SetFlag(LockElement(p, e), e, InUse)
  }

  datatype PostResult = PostResult(pump: Pump, element: Option<nat>)

  /** What post asks of its caller: a registered id, and a readable message of the pool's size
      behind a pointer that is not one of the pool's own. */
  ghost predicate PostCallable(cfg: Config, id: int, addr: int, bytes: seq<byte>) {
    && cfg.overhead > 0 && 0 <= addr < ADDRESSES
    && (id < LAST_ID ==>
          && Lookup(cfg, id).Some?
          && var pool := cfg.pools[Lookup(cfg, id).value];
             Classify(cfg, pool, addr) == Outside ==> |bytes| >= pool.msgSize)
  }

  /** A pointer to an element of the pool: queued as it is if its poster holds it alone, and
      forced free otherwise. */
  function PostElement(p: Pump, id: int, k: nat, e: nat): PostResult
    requires e < |p.hdr| && p.tail < |p.queue|
  {
    if p.hdr[e].refCnt == 1 && p.hdr[e].flags == InUse && p.hdr[e].magic == MAGIC then
      PostResult(Enqueue(SetFlag(p, e, PostedNotDispatched), Entry(id, e, k)), Some(e))
    else
      PostResult(p.(hdr := p.hdr[e := Header(MAGIC, 0, Nothing)]), None)
  }

  /** The message's bytes go into a free element, and that into the queue. */
  function CopyInto(p: Pump, id: int, k: nat, e: nat, bytes: seq<byte>): Pump
    requires e < |p.hdr| == |p.data| && p.tail < |p.queue|
  {
    var q := SetFlag(LockElement(p, e), e, PostedNotDispatched);
    Enqueue(q.(data := q.data[e := bytes]), Entry(id, e, k))
  }

  /** A pointer to somewhere else: copied into the first free element, if there is one. */
  function PostCopy(p: Pump, id: int, k: nat, pool: Pool, bytes: seq<byte>): PostResult
    requires pool.base + pool.amount <= |p.hdr| == |p.data|
    requires p.tail < |p.queue| && |bytes| >= pool.msgSize
  {
    var e := FirstFree(p.hdr, pool.base, pool.base + pool.amount);
    if e.None? then PostResult(p, None)
    else PostResult(CopyInto(p, id, k, e.value, bytes[..pool.msgSize]), e)
  }

  /** Post, with the element that was queued if it succeeded. `bytes` is what the pointer
      `addr` leads to when it leads outside the pool. */
  ghost function Post(cfg: Config, p: Pump, id: int, addr: int, bytes: seq<byte>): (r: PostResult)
    requires WellFormed(cfg) && Shape(cfg, p) && PostCallable(cfg, id, addr, bytes)
    ensures r.element.Some? ==> r.element.value < cfg.elements
  {
    if QueueFull(p) || id >= LAST_ID then PostResult(p, None)
    else
      var k := Lookup(cfg, id).value;
      var pool := cfg.pools[k];
      assert PoolOk(cfg, pool) && InMemory(cfg, pool);
      match Classify(cfg, pool, addr)
      case Misaligned => PostResult(p, None)
      case Element(i) =>
        ClassifyIff(cfg, pool, addr, i);
        PostElement(p, id, k, pool.base + i)
      case Outside => PostCopy(p, id, k, pool, bytes)
  }

  lemma PostElementKeepsShape(cfg: Config, p: Pump, id: int, k: nat, e: nat)
    requires Shape(cfg, p) && e < cfg.elements && k < |cfg.pools|
    ensures Shape(cfg, PostElement(p, id, k, e).pump)
  {
  }

  lemma PostCopyKeepsShape(cfg: Config, p: Pump, id: int, k: nat, bytes: seq<byte>)
    requires WellFormed(cfg) && Shape(cfg, p) && k < |cfg.pools|
    requires |bytes| >= cfg.pools[k].msgSize && PoolOk(cfg, cfg.pools[k])
    ensures Shape(cfg, PostCopy(p, id, k, cfg.pools[k], bytes).pump)
  {
    var pool := cfg.pools[k];
    var e := FirstFree(p.hdr, pool.base, pool.base + pool.amount);
    if e.Some? {
      assert PoolData(p.data, pool);
      var q := SetFlag(LockElement(p, e.value), e.value, PostedNotDispatched);
      FillKeepsShape(cfg, q, e.value, bytes[..pool.msgSize]);
    }
  }

  lemma PostKeepsShape(cfg: Config, p: Pump, id: int, addr: int, bytes: seq<byte>)
    requires WellFormed(cfg) && Shape(cfg, p) && PostCallable(cfg, id, addr, bytes)
    ensures Shape(cfg, Post(cfg, p, id, addr, bytes).pump)
  {
    if !QueueFull(p) && id < LAST_ID {
      var k := Lookup(cfg, id).value;
      var pool := cfg.pools[k];
      assert PoolOk(cfg, pool) && InMemory(cfg, pool);
      match Classify(cfg, pool, addr)
      case Misaligned =>
      case Element(i) =>
        ClassifyIff(cfg, pool, addr, i);
        PostElementKeepsShape(cfg, p, id, k, pool.base + i);
      case Outside =>
        PostCopyKeepsShape(cfg, p, id, k, bytes);
    }
  }

  /** The receiver slot that a registration takes: the first that is empty or already its own. */
  function RegisterSlot(slots: seq<Callback>, cb: Callback, i: nat): (r: Option<nat>)
    requires i <= |slots|
    ensures r.Some? ==> i <= r.value < |slots| && slots[r.value] in {NO_CALLBACK, cb} &&
                        forall j :: i <= j < r.value ==> slots[j] !in {NO_CALLBACK, cb}
    ensures r.None? ==> forall j :: i <= j < |slots| ==> slots[j] !in {NO_CALLBACK, cb}
    decreases |slots| - i
  {
    if i == |slots| then None
    else if slots[i] == NO_CALLBACK || slots[i] == cb then Some(i)
    else RegisterSlot(slots, cb, i + 1)
  }

  /** The receiver slots after a registration, which may find no slot. */
  function Registered(slots: seq<Callback>, cb: Callback): seq<Callback> {
    match RegisterSlot(slots, cb, 0)
    case Some(i) => slots[i := cb]
    case None => slots
  }

  /** The receiver slots after the first occurrence of a callback is emptied. */
  function Unregistered(slots: seq<Callback>, cb: Callback): seq<Callback> {
    match FirstIndex(slots, cb, 0)
    case Some(i) => slots[i := NO_CALLBACK]
    case None => slots
  }

  ghost function Register(cfg: Config, p: Pump, id: int, cb: Callback): Pump
    requires Shape(cfg, p)
  {
    if FIRST_ID <= id < LAST_ID && cb != NO_CALLBACK && Lookup(cfg, id).Some? then
      var k := Lookup(cfg, id).value;
      p.(receivers := p.receivers[k := Registered(p.receivers[k], cb)])
    else p
  }

  ghost function Unregister(cfg: Config, p: Pump, id: int, cb: Callback): Pump
    requires Shape(cfg, p)
  {
    if id < LAST_ID && cb != NO_CALLBACK && Lookup(cfg, id).Some? then
      var k := Lookup(cfg, id).value;
      p.(receivers := p.receivers[k := Unregistered(p.receivers[k], cb)])
    else p
  }

  // ---- The pump together with the bookkeeping of its clients ----

  /** Who is responsible for an element. */
  datatype Owner = Free | Held(who: nat) | Queued | Dispatching | Retained

  datatype Message = Message(id: int, element: nat, bytes: seq<byte>)

  /** One look of the dispatcher at a receiver slot; `NO_CALLBACK` slots are passed over. */
  datatype Visit = Visit(slot: nat, callback: Callback, id: int, bytes: seq<byte>)

  /** The pump and a ledger that the pump knows nothing of: each element's owner, the locks its
      clients have yet to return, every message ever posted with its bytes at that time, how
      many of them are done with, and every look at a receiver slot. */
  datatype Sys = Sys(p: Pump, own: seq<Owner>, locks: seq<nat>,
                     posted: seq<Message>, done: nat, visits: seq<Visit>)

  datatype Event =
    | GetFree(who: nat, id: int)
    | Fill(who: nat, element: nat, bytes: seq<byte>)
    | PostMessage(who: nat, id: int, addr: int, bytes: seq<byte>)
    | LockMessage(element: nat)
    | UnlockMessage(element: nat)
    | RegisterOn(id: int, cb: Callback)
    | UnregisterFrom(id: int, cb: Callback)
    | Dispatch

  ghost predicate SysShape(cfg: Config, s: Sys) {
    Shape(cfg, s.p) && |s.own| == cfg.elements && |s.locks| == cfg.elements
  }

  /** What the operations demand of any caller at all. */
  ghost predicate Callable(cfg: Config, s: Sys, ev: Event)
    requires SysShape(cfg, s)
  {
    match ev
    case Fill(_, e, bytes) => e < cfg.elements && |bytes| == |s.p.data[e]|
    case PostMessage(_, id, addr, bytes) => PostCallable(cfg, id, addr, bytes)
    case LockMessage(e) => e < cfg.elements
    case UnlockMessage(e) => e < cfg.elements
    case UnregisterFrom(id, cb) => id < LAST_ID && cb != NO_CALLBACK ==> Lookup(cfg, id).Some?
    case _ => true
  }

  /** The state that initialisation leaves behind. */
  ghost predicate IsInitial(cfg: Config, s: Sys) {
    && WellFormed(cfg) && SysShape(cfg, s)
    && (forall e :: 0 <= e < cfg.elements ==> s.p.hdr[e] == Header(MAGIC, 0, Nothing))
    && (forall e :: 0 <= e < cfg.elements ==> s.own[e] == Free)
    && (forall e :: 0 <= e < cfg.elements ==> s.locks[e] == 0)
    && (forall k :: 0 <= k < |cfg.pools| ==> s.p.receivers[k] == NO_RECEIVERS)
    && s.p.front == s.p.tail == s.p.size == 0 && s.p.pc == Idle
    && s.posted == [] && s.done == 0 && s.visits == []
  }

  lemma InitialFrom(cfg: Config, s: Sys)
    requires WellFormed(cfg)
    requires |s.p.hdr| == |s.p.data| == cfg.elements
    requires forall e :: 0 <= e < |s.p.hdr| ==> s.p.hdr[e] == Header(MAGIC, 0, Nothing)
    requires s.own == seq(cfg.elements, _ => Free) && s.locks == seq(cfg.elements, _ => 0)
    requires |s.p.receivers| == |cfg.pools|
    requires forall k :: 0 <= k < |s.p.receivers| ==> s.p.receivers[k] == NO_RECEIVERS
    requires QueueOk(cfg, s.p.queue)
    requires forall k :: 0 <= k < |cfg.pools| ==> PoolData(s.p.data, cfg.pools[k])
    requires s.p.front == s.p.tail == s.p.size == 0 && s.p.pc == Idle
    requires s.posted == [] && s.done == 0 && s.visits == []
    ensures IsInitial(cfg, s)
  {
  }

  function FrontEntry(p: Pump): Entry
    requires p.front < |p.queue|
  {
    p.queue[p.front]
  }

  ghost function DispatchStep(cfg: Config, s: Sys): Sys
    requires SysShape(cfg, s)
  {
    var m := FrontEntry(s.p);
    var e := m.buffer;
    match s.p.pc
    case Idle =>
      if s.p.size == 0 then s
      else s.(p := SetFlag(s.p, e, InUse).(pc := Calling(0)), own := s.own[e := Dispatching])
    case Calling(i) =>
      if i < RECEIVERS then
        s.(p := s.p.(pc := Calling(i + 1)),
           visits := s.visits + [Visit(i, s.p.receivers[m.pool][i], cfg.pools[m.pool].id, s.p.data[e])])
      else s.(p := SetFlag(s.p, e, Nothing).(pc := Ended))
    case Ended =>
      s.(p := UnlockElement(s.p, e).(pc := Released),
         own := s.own[e := if s.locks[e] > 0 then Retained else Free])
    case Released =>
      s.(p := s.p.(front := (s.p.front + 1) % QUEUE_MAX, size := s.p.size - 1, pc := Idle),
         done := s.done + 1)
  }

  ghost function GetFreeStep(cfg: Config, s: Sys, who: nat, id: int): Sys
    requires WellFormed(cfg) && SysShape(cfg, s)
  {
    var e := Acquirable(cfg, s.p, id);
    if e.Some? then s.(p := Acquire(s.p, e.value), own := s.own[e.value := Held(who)]) else s
  }

  /** The ledger entry for a post. */
  ghost function Ledger(s: Sys, id: int, r: PostResult): Sys
    requires r.element.Some? ==> r.element.value < |s.own| && r.element.value < |r.pump.data|
  {
    if r.element.None? then s.(p := r.pump)
    else
      var e := r.element.value;
      s.(p := r.pump, own := s.own[e := Queued], posted := s.posted + [Message(id, e, r.pump.data[e])])
  }

  ghost function PostStep(cfg: Config, s: Sys, id: int, addr: int, bytes: seq<byte>): Sys
    requires WellFormed(cfg) && SysShape(cfg, s) && PostCallable(cfg, id, addr, bytes)
  {
    PostKeepsShape(cfg, s.p, id, addr, bytes);
    Ledger(s, id, Post(cfg, s.p, id, addr, bytes))
  }

  ghost function LockStep(cfg: Config, s: Sys, e: nat): Sys
    requires SysShape(cfg, s) && e < cfg.elements
  {
    s.(p := LockElement(s.p, e),
       locks := if CanLock(s.p.hdr[e]) then s.locks[e := s.locks[e] + 1] else s.locks)
  }

  ghost function UnlockStep(cfg: Config, s: Sys, e: nat): Sys
    requires SysShape(cfg, s) && e < cfg.elements
  {
    if CanUnlock(s.p.hdr[e]) && s.locks[e] > 0 then
      s.(p := UnlockElement(s.p, e),
         locks := s.locks[e := s.locks[e] - 1],
         own := if s.own[e] == Retained && s.locks[e] == 1 then s.own[e := Free] else s.own)
    else s.(p := UnlockElement(s.p, e))
  }

  /** One step of anyone. */
  ghost function Apply(cfg: Config, s: Sys, ev: Event): Sys
    requires WellFormed(cfg) && SysShape(cfg, s) && Callable(cfg, s, ev)
  {
    match ev
    case GetFree(who, id) => GetFreeStep(cfg, s, who, id)
    case Fill(_, e, bytes) => s.(p := s.p.(data := s.p.data[e := bytes]))
    case PostMessage(_, id, addr, bytes) => PostStep(cfg, s, id, addr, bytes)
    case LockMessage(e) => LockStep(cfg, s, e)
    case UnlockMessage(e) => UnlockStep(cfg, s, e)
    case RegisterOn(id, cb) => s.(p := Register(cfg, s.p, id, cb))
    case UnregisterFrom(id, cb) => s.(p := Unregister(cfg, s.p, id, cb))
    case Dispatch => DispatchStep(cfg, s)
  }

  lemma DispatchKeepsShape(cfg: Config, s: Sys)
    requires SysShape(cfg, s)
    ensures SysShape(cfg, DispatchStep(cfg, s))
  {
  }

  /** `n` steps of the dispatcher with nothing in between. */
  ghost function DispatchSteps(cfg: Config, s: Sys, n: nat): (t: Sys)
    requires SysShape(cfg, s)
    ensures SysShape(cfg, t)
    decreases n
  {
    if n == 0 then s
    else
      DispatchKeepsShape(cfg, s);
      DispatchSteps(cfg, DispatchStep(cfg, s), n - 1)
  }

  ghost function DispatchCalls(cfg: Config, s: Sys): (t: Sys)
    requires SysShape(cfg, s)
    ensures SysShape(cfg, t)
  {
    DispatchKeepsShape(cfg, s);
    DispatchSteps(cfg, DispatchStep(cfg, s), RECEIVERS)
  }

  ghost function DispatchEnd(cfg: Config, s: Sys): (t: Sys)
    requires SysShape(cfg, s)
    ensures SysShape(cfg, t)
  {
    DispatchKeepsShape(cfg, s);
    var finished := DispatchStep(cfg, s);
    DispatchKeepsShape(cfg, finished);
    var released := DispatchStep(cfg, finished);
    DispatchKeepsShape(cfg, released);
    DispatchStep(cfg, released)
  }

  /** The dispatcher's whole treatment of one message. */
  ghost function DispatchRound(cfg: Config, s: Sys): (t: Sys)
    requires SysShape(cfg, s)
    ensures SysShape(cfg, t)
  {
    DispatchEnd(cfg, DispatchCalls(cfg, s))
  }

  lemma RegistrationKeepsShape(cfg: Config, p: Pump, id: int, cb: Callback)
    requires Shape(cfg, p)
    ensures Shape(cfg, Register(cfg, p, id, cb)) && Shape(cfg, Unregister(cfg, p, id, cb))
  {
  }

  lemma ApplyKeepsShape(cfg: Config, s: Sys, ev: Event)
    requires WellFormed(cfg) && SysShape(cfg, s) && Callable(cfg, s, ev)
    ensures SysShape(cfg, Apply(cfg, s, ev))
  {
    match ev
    case Fill(_, e, bytes) => FillKeepsShape(cfg, s.p, e, bytes);
    case PostMessage(_, id, addr, bytes) => PostKeepsShape(cfg, s.p, id, addr, bytes);
    case Dispatch => DispatchKeepsShape(cfg, s);
    case RegisterOn(id, cb) => RegistrationKeepsShape(cfg, s.p, id, cb);
    case UnregisterFrom(id, cb) => RegistrationKeepsShape(cfg, s.p, id, cb);
    case _ =>
  }
}
