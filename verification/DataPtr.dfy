/** Ownership of allocations by `DataPtr` objects (data_ptr.h). */
module DataPtrs {
  import opened Core
  import opened Devices

  /** A memory address; 0 is the null pointer. */
  type Address = nat

  datatype Allocation = Allocation(data: Address, bytes: nat, device: Device)

  /** The three members of a `DataPtr`. A deleter is a function pointer, named by a number. */
  datatype Contents = Contents(allocation: Allocation, context: Address, deleter: Option<nat>)

  const EMPTY := Contents(Allocation(0, 0, Device(CPU, 0)), 0, None)

  /** What a deleter is called with, and which deleter it is. */
  datatype Block = Block(data: Address, context: Address, deleter: nat)

  /** The deleter call that a `DataPtr` with these contents owes. */
  function Owed(c: Contents): seq<Block> {
    if c.allocation.data != 0 && c.deleter.Some? then [Block(c.allocation.data, c.context, c.deleter.value)] else []
  }

  /** The deleter calls made so far. */
  class Log {
    var calls: seq<Block>
    constructor () ensures calls == [] { calls := []; }
  }

  class DataPtr {
    var allocation: Allocation
    var context: Address
    var deleter: Option<nat>

    function Get(): Contents reads this { Contents(allocation, context, deleter) }

    constructor Null()
      ensures Get() == EMPTY
      ensures allocation == Allocation(0, 0, Device(CPU, 0)) && context == 0 && deleter == None
    {
      allocation, context, deleter := EMPTY.allocation, EMPTY.context, EMPTY.deleter;
    }

    constructor Adopt(allocation: Allocation, context: Address, deleter: Option<nat>)
      ensures Get() == Contents(allocation, context, deleter)
    {
      this.allocation, this.context, this.deleter := allocation, context, deleter;
    }

    /** `DataPtr(DataPtr&&)` */
    constructor Move(other: DataPtr)
      modifies other
      ensures Get() == old(other.Get()) && other.Get() == EMPTY
      ensures [Live(other.Get()), Live(Get())] == After([Live(old(other.Get()))], MoveNew(0))
    {
      allocation, context, deleter := other.allocation, other.context, other.deleter;
      new;
      other.allocation := EMPTY.allocation;
      other.context := EMPTY.context;
      other.deleter := EMPTY.deleter;
    }

    /** `reset` and the destructor */
    method Reset(log: Log)
      modifies this, log
      ensures Get() == EMPTY && allocation == Allocation(0, 0, Device(CPU, 0)) && context == 0 && deleter == None
      ensures log.calls == old(log.calls) + Owed(old(Get()))
      ensures old(allocation.data) != 0 && old(deleter).Some? ==>
                log.calls == old(log.calls) + [Block(old(allocation.data), old(context), old(deleter.value))]
      ensures old(allocation.data) == 0 || old(deleter).None? ==> log.calls == old(log.calls)
      ensures [Live(Get())] == After([Live(old(Get()))], Op.Reset(0))
      ensures log.calls == old(log.calls) + Calls([Live(old(Get()))], Op.Reset(0))
    {
      if allocation.data != 0 && deleter != None {
        log.calls := log.calls + [Block(allocation.data, context, deleter.value)];
      }
      allocation := EMPTY.allocation;
      context := EMPTY.context;
      deleter := EMPTY.deleter;
    }

    /** `operator=(DataPtr&&)`, also for `other` being this object. */
    method MoveAssign(other: DataPtr, log: Log)
      modifies this, other, log
      ensures Get() == old(other.Get())
      ensures other != this ==> other.Get() == EMPTY
      ensures other != this && old(allocation.data) != 0 && old(deleter).Some? ==>
                log.calls == old(log.calls) + [Block(old(allocation.data), old(context), old(deleter.value))]
      ensures other == this || old(allocation.data) == 0 || old(deleter).None? ==> log.calls == old(log.calls)
      ensures log.calls == old(log.calls) + if other == this then [] else Owed(old(Get()))
      ensures other != this ==> var pool := [Live(old(Get())), Live(old(other.Get()))];
        [Live(Get()), Live(other.Get())] == After(pool, Op.MoveAssign(0, 1))
        && log.calls == old(log.calls) + Calls(pool, Op.MoveAssign(0, 1))
      ensures other == this ==> var pool := [Live(old(Get()))];
        [Live(Get())] == After(pool, Op.MoveAssign(0, 0))
        && log.calls == old(log.calls) + Calls(pool, Op.MoveAssign(0, 0))
    {
      if this != other {
        Reset(log);
        allocation, other.allocation := other.allocation, EMPTY.allocation;
        context, other.context := other.context, EMPTY.context;
        deleter, other.deleter := other.deleter, EMPTY.deleter;
      }
    }

    /** `swap`, also with itself. */
    method Swap(other: DataPtr)
      modifies this, other
      ensures Get() == old(other.Get()) && other.Get() == old(Get())
      ensures other != this ==>
                [Live(Get()), Live(other.Get())] == After([Live(old(Get())), Live(old(other.Get()))], Op.Swap(0, 1))
    {
      allocation, other.allocation := other.allocation, allocation;
      context, other.context := other.context, context;
      deleter, other.deleter := other.deleter, deleter;
    }
  }

  // ----- Any number of objects, any sequence of operations

  /** An object in its lifetime, or one that has been destroyed. */
  datatype Slot = Live(c: Contents) | Ended

  datatype Op =
    | Construct(c: Contents)
    | MoveNew(i: nat)
    | MoveAssign(i: nat, j: nat)
    | Swap(i: nat, j: nat)
    | Reset(i: nat)
    | Destroy(i: nat)

  predicate IsLive(pool: seq<Slot>, i: nat) { i < |pool| && pool[i].Live? }

  predicate Possible(pool: seq<Slot>, op: Op) {
    match op
    case Construct(_) => true
    case MoveNew(i) => IsLive(pool, i)
    case MoveAssign(i, j) => IsLive(pool, i) && IsLive(pool, j)
    case Swap(i, j) => IsLive(pool, i) && IsLive(pool, j)
    case Reset(i) => IsLive(pool, i)
    case Destroy(i) => IsLive(pool, i)
  }

  /** The objects after an operation; the methods of `DataPtr` are proved to do this to their objects. */
  function After(pool: seq<Slot>, op: Op): seq<Slot>
    requires Possible(pool, op)
  {
    match op
    case Construct(c) => pool + [Live(c)]
    case MoveNew(i) => pool[i := Live(EMPTY)] + [pool[i]]
    case MoveAssign(i, j) => if i == j then pool else pool[i := pool[j]][j := Live(EMPTY)]
    case Swap(i, j) => pool[i := pool[j]][j := pool[i]]
    case Reset(i) => pool[i := Live(EMPTY)]
    case Destroy(i) => pool[i := Ended]
  }

  /** The deleter calls an operation makes. */
  function Calls(pool: seq<Slot>, op: Op): seq<Block>
    requires Possible(pool, op)
  {
    match op
    case MoveAssign(i, j) => if i == j then [] else Owed(pool[i].c)
    case Reset(i) => Owed(pool[i].c)
    case Destroy(i) => Owed(pool[i].c)
    case _ => []
  }

  /** The blocks that enter with an operation. */
  function Entering(op: Op): seq<Block> { if op.Construct? then Owed(op.c) else [] }

  // ----- Counting blocks

  /** How often `b` occurs. */
  function Times(s: seq<Block>, b: Block): nat {
    if s == [] then 0 else (if s[0] == b then 1 else 0) + Times(s[1..], b)
  }

  /** 1 if the object owns `b`, 0 otherwise. */
  function Owns(slot: Slot, b: Block): nat { if slot.Live? && Owed(slot.c) == [b] then 1 else 0 }

  /** The number of objects that own `b`. */
  function Owners(pool: seq<Slot>, b: Block): nat {
    if pool == [] then 0 else Owns(pool[0], b) + Owners(pool[1..], b)
  }

  lemma {:induction false} TimesConcat(s: seq<Block>, r: seq<Block>, b: Block)
    ensures Times(s + r, b) == Times(s, b) + Times(r, b)
  {
    if s == [] {
      assert s + r == r;
    } else {
      TimesConcat(s[1..], r, b);
      assert (s + r)[1..] == s[1..] + r;
    }
  }

  /** A deleter call is owed exactly once. */
  lemma TimesOwed(c: Contents, b: Block)
    ensures Times(Owed(c), b) == Owns(Live(c), b)
  {
    assert Owed(c) != [] ==> Owed(c)[1..] == [];
  }

  lemma {:induction false} OwnersPut(pool: seq<Slot>, i: nat, slot: Slot, b: Block)
    requires i < |pool|
    ensures Owners(pool[i := slot], b) + Owns(pool[i], b) == Owners(pool, b) + Owns(slot, b)
  {
    if i == 0 {
      assert pool[0 := slot][1..] == pool[1..];
    } else {
      OwnersPut(pool[1..], i - 1, slot, b);
      assert pool[i := slot][1..] == pool[1..][i - 1 := slot];
    }
  }

  lemma {:induction false} OwnersAppend(pool: seq<Slot>, slot: Slot, b: Block)
    ensures Owners(pool + [slot], b) == Owners(pool, b) + Owns(slot, b)
  {
    if pool == [] {
      assert pool + [slot] == [slot] && [slot][1..] == [];
    } else {
      OwnersAppend(pool[1..], slot, b);
      assert (pool + [slot])[1..] == pool[1..] + [slot];
    }
  }

  lemma EmptyOwnsNothing(b: Block)
    ensures Owns(Live(EMPTY), b) == 0 && Owns(Ended, b) == 0
  {
  }

  /** One operation moves blocks between objects, or hands them to their deleter. */
  lemma OperationConserves(pool: seq<Slot>, op: Op, b: Block)
    requires Possible(pool, op)
    ensures Owners(pool, b) + Times(Entering(op), b) == Owners(After(pool, op), b) + Times(Calls(pool, op), b)
  {
    hide Owed, Owners;
    EmptyOwnsNothing(b);
    match op
    case Construct(c) => OwnersAppend(pool, Live(c), b); TimesOwed(c, b);
    case MoveNew(i) => OwnersPut(pool, i, Live(EMPTY), b); OwnersAppend(pool[i := Live(EMPTY)], pool[i], b);
    case MoveAssign(i, j) =>
      if i != j {
        OwnersPut(pool, i, pool[j], b); OwnersPut(pool[i := pool[j]], j, Live(EMPTY), b);
        TimesOwed(pool[i].c, b);
      }
    case Swap(i, j) => OwnersPut(pool, i, pool[j], b); OwnersPut(pool[i := pool[j]], j, pool[i], b);
    case Reset(i) => OwnersPut(pool, i, Live(EMPTY), b); TimesOwed(pool[i].c, b);
    case Destroy(i) => OwnersPut(pool, i, Ended, b); TimesOwed(pool[i].c, b);
  }

  // ----- Runs

  /** A run: its operations, the latest outermost. */
  datatype History = Start | More(prev: History, op: Op)

  ghost predicate Legal(h: History) { h.More? ==> Legal(h.prev) && Possible(Pool(h.prev), h.op) }

  ghost function Pool(h: History): seq<Slot> {
    if h.Start? then [] else if Possible(Pool(h.prev), h.op) then After(Pool(h.prev), h.op) else Pool(h.prev)
  }

  ghost function Called(h: History): seq<Block> {
    if h.Start? then []
    else Called(h.prev) + if Possible(Pool(h.prev), h.op) then Calls(Pool(h.prev), h.op) else []
  }

  ghost function Entered(h: History): seq<Block> {
    if h.Start? then [] else Entered(h.prev) + Entering(h.op)
  }

  /** Conservation: what was entrusted is owned or has gone to its deleter, with multiplicity. */
  lemma {:induction false} BlocksConserved(h: History, b: Block)
    requires Legal(h)
    ensures Times(Entered(h), b) == Owners(Pool(h), b) + Times(Called(h), b)
  {
    if h.More? {
      BlocksConserved(h.prev, b);
      OperationConserves(Pool(h.prev), h.op, b);
      TimesConcat(Entered(h.prev), Entering(h.op), b);
      TimesConcat(Called(h.prev), Calls(Pool(h.prev), h.op), b);
    }
  }

  lemma {:induction false} OwnersAtLeast(pool: seq<Slot>, i: nat, b: Block)
    requires i < |pool|
    ensures Owners(pool, b) >= Owns(pool[i], b)
  {
    if i > 0 { OwnersAtLeast(pool[1..], i - 1, b); }
  }

  /** Two different objects count separately. */
  lemma {:induction false} OwnersAtLeastBoth(pool: seq<Slot>, i: nat, j: nat, b: Block)
    requires i < j < |pool|
    ensures Owners(pool, b) >= Owns(pool[i], b) + Owns(pool[j], b)
  {
    if i > 0 { OwnersAtLeastBoth(pool[1..], i - 1, j - 1, b); } else { OwnersAtLeast(pool[1..], j - 1, b); }
  }

  /**
   If a block was entrusted once, it has at most one owner, and none once its deleter has run, which it
   does at most once.
   */
  lemma OneOwner(h: History, i: nat, b: Block)
    requires Legal(h) && Times(Entered(h), b) == 1 && i < |Pool(h)|
    ensures Times(Called(h), b) <= 1
    ensures Owns(Pool(h)[i], b) == 1 ==>
              Times(Called(h), b) == 0 && forall j | 0 <= j < |Pool(h)| && j != i :: Owns(Pool(h)[j], b) == 0
  {
    BlocksConserved(h, b);
    OwnersAtLeast(Pool(h), i, b);
    if Owns(Pool(h)[i], b) == 1 {
      forall j | 0 <= j < |Pool(h)| && j != i ensures Owns(Pool(h)[j], b) == 0 {
        OwnersAtLeastBoth(Pool(h), if i < j then i else j, if i < j then j else i, b);
      }
    }
  }

  lemma {:induction false} NothingOwned(pool: seq<Slot>, b: Block)
    requires forall i | 0 <= i < |pool| :: pool[i].Ended?
    ensures Owners(pool, b) == 0
  {
    if pool != [] { NothingOwned(pool[1..], b); }
  }

  /**
   Once all objects are destroyed, every block has gone to its own deleter with its own data and
   context as often as it was entrusted, and nothing else has.
   */
  lemma NothingLost(h: History, b: Block)
    requires Legal(h) && forall i | 0 <= i < |Pool(h)| :: Pool(h)[i].Ended?
    ensures Times(Called(h), b) == Times(Entered(h), b)
  {
    BlocksConserved(h, b);
    NothingOwned(Pool(h), b);
  }

  // ----- Every deleter call, seen from the constructor calls

  ghost predicate Occurs(h: History, op: Op) { h.More? && (h.op == op || Occurs(h.prev, op)) }

  /** An object was constructed with this data, context and deleter. */
  ghost predicate Entrusted(h: History, data: Address, context: Address, deleter: nat) {
    exists bytes, device :: Occurs(h, Construct(Contents(Allocation(data, bytes, device), context, Some(deleter))))
  }

  lemma {:induction false} TimesIff(s: seq<Block>, b: Block)
    ensures Times(s, b) > 0 <==> b in s
  {
    if s != [] {
      assert s == [s[0]] + s[1..];
      TimesIff(s[1..], b);
    }
  }

  lemma {:induction false} EnteredIff(h: History, data: Address, context: Address, deleter: nat)
    ensures Block(data, context, deleter) in Entered(h) <==> data != 0 && Entrusted(h, data, context, deleter)
  {
    var b := Block(data, context, deleter);
    if h.More? {
      EnteredIff(h.prev, data, context, deleter);
      if h.op.Construct? {
        var c := h.op.c;
        var bytes, device := c.allocation.bytes, c.allocation.device;
        assert b in Owed(c) <==> data != 0 && c == Contents(Allocation(data, bytes, device), context, Some(deleter));
      }
      if bytes, device :| Occurs(h.prev, Construct(Contents(Allocation(data, bytes, device), context, Some(deleter)))) {
        assert Occurs(h, Construct(Contents(Allocation(data, bytes, device), context, Some(deleter))));
      }
    }
  }

  /**
   A deleter is only ever called with non-null data and the context it came with, and once all objects
   are destroyed, every such deleter that was passed to a constructor has been called.
   */
  lemma DeletersCalled(h: History, data: Address, context: Address, deleter: nat)
    requires Legal(h)
    ensures Block(data, context, deleter) in Called(h) ==> data != 0 && Entrusted(h, data, context, deleter)
    ensures (forall i | 0 <= i < |Pool(h)| :: Pool(h)[i].Ended?) && data != 0 && Entrusted(h, data, context, deleter)
        ==> Block(data, context, deleter) in Called(h)
  {
    var b := Block(data, context, deleter);
    EnteredIff(h, data, context, deleter);
    TimesIff(Entered(h), b);
    TimesIff(Called(h), b);
    BlocksConserved(h, b);
    if forall i | 0 <= i < |Pool(h)| :: Pool(h)[i].Ended? { NothingLost(h, b); }
  }

  ghost predicate Continues(h: History, k: History) { k == h || (k.More? && Continues(h, k.prev)) }

  /** Every run can be continued so that all objects are destroyed, or so that there is one more. */
  lemma AllCanEnd(h: History) returns (k: History)
    requires Legal(h)
    ensures Legal(k) && Continues(h, k) && |Pool(k)| == |Pool(h)|
    ensures forall i | 0 <= i < |Pool(k)| :: Pool(k)[i].Ended?
    ensures forall c :: Legal(More(h, Construct(c))) && Pool(More(h, Construct(c))) == Pool(h) + [Live(c)]
  {
    k := FirstCanEnd(h, |Pool(h)|);
  }

  lemma {:induction false} FirstCanEnd(h: History, n: nat) returns (k: History)
    requires Legal(h) && n <= |Pool(h)|
    ensures Legal(k) && Continues(h, k) && |Pool(k)| == |Pool(h)|
    ensures forall i | 0 <= i < n :: Pool(k)[i].Ended?
  {
    if n == 0 {
      k := h;
    } else {
      k := FirstCanEnd(h, n - 1);
      if Pool(k)[n - 1].Live? { k := More(k, Destroy(n - 1)); }
    }
  }
}
