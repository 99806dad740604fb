/** Host memory: `CpuAllocator::allocate`, its deleter, and the heap behind them (backend/cpu/runtime.cc). */
module CpuAllocator {
  import opened Core
  import opened CheckedMath
  import opened Devices
  import opened DataPtrs

  // ----- is_power_of_two

  /** The bitwise `&` of two natural numbers. */
  function BitAnd(a: nat, b: nat): nat {
    if a == 0 || b == 0 then 0 else (a % 2) * (b % 2) + 2 * BitAnd(a / 2, b / 2)
  }

  /** `is_power_of_two` */
  predicate IsPowerOfTwo(value: nat) { value != 0 && BitAnd(value, value - 1) == 0 }

  lemma {:induction false} BitAndSelf(a: nat)
    ensures BitAnd(a, a) == a
  {
    if a != 0 { BitAndSelf(a / 2); }
  }

  /** The bit trick recognises exactly the powers of two. */
  lemma {:induction false} BitTrickIff(value: nat)
    ensures IsPowerOfTwo(value) <==> exists k: nat :: value == Pow2(k)
  {
    if value == 0 {
    } else if value == 1 {
      assert value == Pow2(0);
    } else if value % 2 == 1 {
      BitAndSelf(value / 2);
      assert (value - 1) / 2 == value / 2;
      forall k: nat ensures value != Pow2(k) { }
    } else {
      BitTrickIff(value / 2);
      assert (value - 1) / 2 == value / 2 - 1;
      if k: nat :| value / 2 == Pow2(k) { assert value == Pow2(k + 1); }
      if k: nat :| value == Pow2(k) { assert value / 2 == Pow2(k - 1); }
    }
  }

  lemma {:induction false} Pow2Divides(a: nat, b: nat)
    requires a <= b
    ensures Pow2(b) % Pow2(a) == 0
  {
    if a == b {
      SelfRemainder(Pow2(a));
    } else {
      Pow2Divides(a, b - 1);
      DoubleRemainder(Pow2(b - 1), Pow2(a));
    }
  }

  lemma SelfRemainder(n: int) requires n >= 1 ensures n % n == 0 { }

  lemma DoubleRemainder(n: int, d: int)
    requires d >= 1 && n % d == 0
    ensures (2 * n) % d == 0
  {
    var q := n / d;
    assert n == q * d;
    Multiple(2 * q, d);
    assert 2 * n == (2 * q) * d;
  }

  lemma Multiple(q: int, d: int)
    requires d >= 1
    ensures (q * d) % d == 0
  {
    QuotientBounds(q * d, d);
    var r := (q * d) / d;
    if r < q { MulMono(d, r + 1, q); } else if q < r { MulMono(d, q + 1, r); }
  }

  /** The larger of two powers of two is a multiple of both. */
  lemma LargerIsMultiple(a: nat, b: nat)
    requires IsPowerOfTwo(a) && IsPowerOfTwo(b) && a <= b
    ensures b % a == 0
  {
    BitTrickIff(a);
    BitTrickIff(b);
    var i: nat, j: nat :| a == Pow2(i) && b == Pow2(j);
    if i <= j { Pow2Divides(i, j); } else { Pow2Grows(j, i); SelfRemainder(a); }
  }

  /** A multiple of a multiple is a multiple. */
  lemma MultipleOfMultiple(a: int, b: int, c: int)
    requires b >= 1 && c >= 1 && a % b == 0 && b % c == 0
    ensures a % c == 0
  {
    var i, j := a / b, b / c;
    assert a == b * i && b == c * j;
    Multiple(i * j, c);
    assert (i * j) * c == (c * j) * i;
  }

  lemma PowerPositive(a: nat) requires IsPowerOfTwo(a) ensures a > 0 { }

  lemma SmallRemainder(n: nat, d: nat) requires n < d ensures n % d == n { }

  // ----- The heap

  /** `alignof(std::max_align_t)` and `sizeof(void*)`. */
  datatype Platform = Platform(maxAlign: nat, pointer: nat) {
    predicate Valid() { IsPowerOfTwo(maxAlign) && IsPowerOfTwo(pointer) }
  }

  /** The extent of an allocated region, the alignment the heap gave it and the one the user asked for. */
  datatype Region = Region(bytes: nat, alignment: nat, requested: nat)

  type Regions = map<Address, Region>

  predicate Apart(a: Address, n: nat, b: Address, m: nat) { a + n <= b || b + m <= a }

  /** What `posix_memalign` requires of the alignment. */
  predicate Memalignable(p: Platform, alignment: nat) {
    p.pointer > 0 && IsPowerOfTwo(alignment) && alignment % p.pointer == 0
  }

  /** What `posix_memalign` promises about a successful answer. */
  predicate Placeable(live: Regions, data: Address, alignment: nat, bytes: nat) {
    && alignment > 0 && data != 0 && data % alignment == 0
    && forall a | a in live :: Apart(a, live[a].bytes, data, bytes)
  }

  /** A request to the heap, with its answer. */
  datatype Asked = Asked(alignment: nat, bytes: nat, answer: Option<Address>)

  /** A heap that may refuse any request. */
  class Heap {
    ghost var live: Regions
    ghost var requests: seq<Asked>
    var top: nat

    ghost predicate Valid() reads this { forall a | a in live :: live[a].bytes > 0 && a + live[a].bytes <= top }

    constructor () ensures Valid() && live == map[] { live, requests, top := map[], [], 0; }

    method PosixMemalign(p: Platform, alignment: nat, bytes: nat, ghost requested: nat)
        returns (answer: Option<Address>)
      requires Valid() && Memalignable(p, alignment) && bytes > 0
      modifies this
      ensures Valid() && requests == old(requests) + [Asked(alignment, bytes, answer)]
      ensures answer.None? ==> live == old(live)
      ensures answer.Some? ==> Placeable(old(live), answer.value, alignment, bytes)
      ensures answer.Some? ==> live == old(live)[answer.value := Region(bytes, alignment, requested)]
    {
      var refuse: bool := *;
      if refuse {
        requests := requests + [Asked(alignment, bytes, None)];
        return None;
      }
      var data := (top / alignment + 1) * alignment;
      QuotientBounds(top, alignment);
      Multiple(top / alignment + 1, alignment);
      assert data == (top / alignment) * alignment + alignment > top;
      live := live[data := Region(bytes, alignment, requested)];
      top := data + bytes;
      requests := requests + [Asked(alignment, bytes, Some(data))];
      return Some(data);
    }

    /** `std::free` of a live region, as `free_cpu_memory` calls it. */
    method Free(data: Address)
      requires Valid() && data in live
      modifies this
      ensures Valid() && live == old(live) - {data} && requests == old(requests)
    {
      live := live - {data};
    }
  }

  // ----- allocate

  const PTRDIFF_MAX := INT64.Max()

  /** The deleter `free_cpu_memory`. */
  const FREE: nat := 1

  const CPU0 := Device(CPU, 0)

  /** The outcome of `allocate`, given the answer of the heap should it be asked. */
  function Outcome(p: Platform, bytes: nat, alignment: nat, device: Device, answer: Option<Address>): Result<Contents> {
    if device != CPU0 then Err(InvalidArgument)
    else if !IsPowerOfTwo(alignment) then Err(InvalidArgument)
    else if bytes == 0 then Ok(EMPTY)
    else if Effective(p, alignment) < p.pointer then Err(InvalidArgument)
    else if bytes > PTRDIFF_MAX then Err(ResourceExhausted)
    else
      match answer
      case None => Err(ResourceExhausted)
      case Some(data) => Ok(Contents(Allocation(data, bytes, device), 0, Some(FREE)))
  }

  function Effective(p: Platform, alignment: nat): nat { if alignment >= p.maxAlign then alignment else p.maxAlign }

  /** The alignment passed on is a multiple of the requested and of the maximal fundamental one, and legal. */
  lemma EffectiveAlignment(p: Platform, alignment: nat)
    requires p.Valid() && IsPowerOfTwo(alignment)
    ensures Effective(p, alignment) % alignment == 0 && Effective(p, alignment) % p.maxAlign == 0
    ensures Memalignable(p, Effective(p, alignment)) <==> p.pointer <= Effective(p, alignment)
  {
    hide IsPowerOfTwo;
    var e := Effective(p, alignment);
    PowerPositive(alignment);
    PowerPositive(p.maxAlign);
    PowerPositive(p.pointer);
    LargerIsMultiple(alignment, e);
    LargerIsMultiple(p.maxAlign, e);
    if p.pointer <= e { LargerIsMultiple(p.pointer, e); } else { SmallRemainder(e, p.pointer); }
  }

  /** What is aligned to the alignment passed on is aligned as the user asked, and for every fundamental type. */
  lemma AlignedAsAsked(p: Platform, alignment: nat, data: Address)
    requires p.Valid() && IsPowerOfTwo(alignment) && data % Effective(p, alignment) == 0
    ensures data % alignment == 0 && data % p.maxAlign == 0
  {
    EffectiveAlignment(p, alignment);
    MultipleOfMultiple(data, Effective(p, alignment), alignment);
    MultipleOfMultiple(data, Effective(p, alignment), p.maxAlign);
  }

  /** `CpuAllocator::allocate` */
  method Allocate(p: Platform, heap: Heap, bytes: nat, alignment: nat, device: Device)
      returns (r: Result<DataPtr>, ghost answer: Option<Address>)
    requires p.Valid() && heap.Valid()
    modifies heap
    ensures heap.Valid()
    ensures device != Device(CPU, 0) || (forall k: nat :: alignment != Pow2(k)) ==> r == Err(InvalidArgument)
    ensures device == Device(CPU, 0) && (exists k: nat :: alignment == Pow2(k)) ==>
              if bytes == 0 then
                r.Ok? && r.value.allocation.data == 0 && r.value.deleter == None
              else if alignment < p.pointer && p.maxAlign < p.pointer then
                r == Err(InvalidArgument)
              else if bytes > 0x7FFF_FFFF_FFFF_FFFF then
                r == Err(ResourceExhausted)
              else
                && |heap.requests| == |old(heap.requests)| + 1
                && heap.requests[|old(heap.requests)|].bytes == bytes
                && heap.requests[|old(heap.requests)|].answer == answer
                && (answer.None? ==> r == Err(ResourceExhausted))
                && (answer.Some? ==> r.Ok? && r.value.allocation == Allocation(answer.value, bytes, Device(CPU, 0))
                                     && r.value.context == 0 && r.value.deleter == Some(FREE))
    ensures |heap.requests| == |old(heap.requests)| ==> answer.None?
    ensures var outcome := Outcome(p, bytes, alignment, device, answer);
      && (r.Ok? <==> outcome.Ok?) && (r.Err? ==> r.code == outcome.code)
      && (r.Ok? ==> fresh(r.value) && r.value.Get() == outcome.value)
    ensures answer.None? ==> heap.live == old(heap.live)
    ensures answer.Some? ==> Placeable(old(heap.live), answer.value, Effective(p, alignment), bytes)
    ensures answer.Some? ==>
              heap.live == old(heap.live)[answer.value := Region(bytes, Effective(p, alignment), alignment)]
    ensures r.Err? ==> heap.live == old(heap.live)
    ensures r.Ok? && bytes > 0 ==>
              && r.value.allocation.data in heap.live && r.value.allocation.data !in old(heap.live)
              && r.value.allocation.data % alignment == 0 && r.value.allocation.data % p.maxAlign == 0
  {
    answer := None;
    BitTrickIff(alignment);
    Limits();
    if device != CPU0 { return Err(InvalidArgument), None; }
    if !IsPowerOfTwo(alignment) {
      assert forall k: nat :: alignment != Pow2(k);
      return Err(InvalidArgument), None;
    }
    if bytes == 0 {
      var empty := new DataPtr.Null();
      return Ok(empty), None;
    }
    var actual := if alignment >= p.maxAlign then alignment else p.maxAlign;
    if actual < p.pointer { return Err(InvalidArgument), None; }
    if bytes > PTRDIFF_MAX { return Err(ResourceExhausted), None; }
    EffectiveAlignment(p, alignment);
    var data := heap.PosixMemalign(p, actual, bytes, alignment);
    answer := data;
    if data.None? { return Err(ResourceExhausted), answer; }
    AlignedAsAsked(p, alignment, data.value);
    var pointer := new DataPtr.Adopt(Allocation(data.value, bytes, device), 0, Some(FREE));
    return Ok(pointer), answer;
  }

  // ----- Any sequence of allocations and ownership operations

  /** `freedTwice` records a deleter call on memory that is not allocated. */
  datatype Memory = Memory(pool: seq<Slot>, live: Regions, freedTwice: bool)

  datatype Step =
    | Request(bytes: nat, alignment: nat, device: Device, answer: Option<Address>)
    | Use(op: Op)

  /** The heap keeps its promise; ownership changes only through `allocate` and the operations of `DataPtr`. */
  predicate Possible(p: Platform, m: Memory, step: Step) {
    match step
    case Request(bytes, alignment, device, answer) =>
      answer.Some? ==> Placeable(m.live, answer.value, Effective(p, alignment), bytes)
    case Use(op) => !op.Construct? && DataPtrs.Possible(m.pool, op)
  }

  function Next(p: Platform, m: Memory, step: Step): Memory
    requires Possible(p, m, step)
  {
    match step
    case Request(bytes, alignment, device, answer) =>
      (match Outcome(p, bytes, alignment, device, answer)
       case Err(_) => m
       case Ok(c) =>
         var live :=
           if c == EMPTY then m.live
           else m.live[c.allocation.data := Region(bytes, Effective(p, alignment), alignment)];
         Memory(After(m.pool, Construct(c)), live, m.freedTwice))
    case Use(op) =>
      var calls := Calls(m.pool, op);
      if calls == [] then m.(pool := After(m.pool, op))
      else Memory(After(m.pool, op), m.live - {calls[0].data}, m.freedTwice || calls[0].data !in m.live)
  }

  datatype Run = Begin | Then(prev: Run, step: Step)

  ghost predicate IsRun(p: Platform, r: Run) {
    r.Then? ==> IsRun(p, r.prev) && Possible(p, End(p, r.prev), r.step)
  }

  ghost function End(p: Platform, r: Run): Memory {
    if r.Begin? then Memory([], map[], false)
    else if Possible(p, End(p, r.prev), r.step) then Next(p, End(p, r.prev), r.step) else End(p, r.prev)
  }

  /** The deleter call that frees the region at `data`. */
  function FreeCall(data: Address): Block { Block(data, 0, FREE) }

  /** The region at `a` is what the heap promised for the request. */
  predicate Granted(p: Platform, a: Address, region: Region) {
    && a != 0 && region.bytes > 0 && IsPowerOfTwo(region.requested)
    && region.alignment == Effective(p, region.requested) && a % region.alignment == 0
  }

  ghost predicate Inv(p: Platform, m: Memory) {
    && !m.freedTwice
    && (forall b :: Owners(m.pool, b) == if b.data in m.live && b == FreeCall(b.data) then 1 else 0)
    && (forall a, b | a in m.live && b in m.live && a != b :: Apart(a, m.live[a].bytes, b, m.live[b].bytes))
    && (forall a | a in m.live :: Granted(p, a, m.live[a]))
  }

  lemma RequestKeeps(p: Platform, m: Memory, step: Step)
    requires Inv(p, m) && step.Request? && Possible(p, m, step)
    ensures Inv(p, Next(p, m, step))
  {
    hide Owners, Effective, IsPowerOfTwo;
    var m' := Next(p, m, step);
    var outcome := Outcome(p, step.bytes, step.alignment, step.device, step.answer);
    if outcome.Ok? {
      var c := outcome.value;
      forall b ensures Owners(m'.pool, b) == if b.data in m'.live && b == FreeCall(b.data) then 1 else 0 {
        OwnersAppend(m.pool, Live(c), b);
        if c == EMPTY { EmptyOwnsNothing(b); }
      }
    }
  }

  lemma UseKeeps(p: Platform, m: Memory, step: Step)
    requires Inv(p, m) && step.Use? && Possible(p, m, step)
    ensures Inv(p, Next(p, m, step))
  {
    hide Owners, Calls, After, Times;
    var m', calls := Next(p, m, step), Calls(m.pool, step.op);
    forall b ensures Owners(m'.pool, b) == if b.data in m'.live && b == FreeCall(b.data) then 1 else 0 {
      OperationConserves(m.pool, step.op, b);
      AtMostOneCall(m.pool, step.op, b);
      if calls != [] {
        OperationConserves(m.pool, step.op, calls[0]);
        AtMostOneCall(m.pool, step.op, calls[0]);
      }
    }
    if calls != [] {
      OperationConserves(m.pool, step.op, calls[0]);
      AtMostOneCall(m.pool, step.op, calls[0]);
    }
  }

  lemma AtMostOneCall(pool: seq<Slot>, op: Op, b: Block)
    requires !op.Construct? && DataPtrs.Possible(pool, op)
    ensures Entering(op) == [] && Times([], b) == 0
    ensures var calls := Calls(pool, op);
      |calls| <= 1 && Times(calls, b) == if calls != [] && calls[0] == b then 1 else 0
  {
    hide Owed;
    match op {
      case MoveAssign(i, _) => AtMostOneOwed(pool[i].c);
      case Reset(i) => AtMostOneOwed(pool[i].c);
      case Destroy(i) => AtMostOneOwed(pool[i].c);
      case _ =>
    }
    TimesOfOne(Calls(pool, op), b);
  }

  lemma TimesOfOne(s: seq<Block>, b: Block)
    requires |s| <= 1
    ensures Times([], b) == 0 && Times(s, b) == if s != [] && s[0] == b then 1 else 0
  {
    if s != [] { assert s[1..] == []; }
  }

  lemma AtMostOneOwed(c: Contents)
    ensures |Owed(c)| <= 1
  {
  }

  lemma {:induction false} MemoryInv(p: Platform, r: Run)
    requires IsRun(p, r)
    ensures Inv(p, End(p, r))
  {
    if r.Then? {
      MemoryInv(p, r.prev);
      if r.step.Request? { RequestKeeps(p, End(p, r.prev), r.step); } else { UseKeeps(p, End(p, r.prev), r.step); }
    }
  }

  /**
   In every run nothing is freed twice, live allocations are aligned as asked and do not overlap, each
   of them has exactly one owner, and no object owns anything else.
   */
  lemma LiveAllocations(p: Platform, r: Run)
    requires p.Valid() && IsRun(p, r)
    ensures var m := End(p, r);
      && !m.freedTwice
      && (forall a | a in m.live :: m.live[a].requested > 0 && a % m.live[a].requested == 0 && a % p.maxAlign == 0)
      && (forall a, b | a in m.live && b in m.live && a != b :: Apart(a, m.live[a].bytes, b, m.live[b].bytes))
      && (forall b :: Owners(m.pool, b) == if b.data in m.live && b == FreeCall(b.data) then 1 else 0)
  {
    hide Owners, Effective, IsPowerOfTwo, Granted, Apart;
    PowerPositive(p.maxAlign);
    MemoryInv(p, r);
    var m := End(p, r);
    forall a | a in m.live
      ensures m.live[a].requested > 0 && a % m.live[a].requested == 0 && a % p.maxAlign == 0
    {
      GrantedAsAsked(p, a, m.live[a]);
    }
  }

  lemma GrantedAsAsked(p: Platform, a: Address, region: Region)
    requires p.Valid() && Granted(p, a, region)
    ensures region.requested > 0 && a % region.requested == 0 && p.maxAlign > 0 && a % p.maxAlign == 0
  {
    hide IsPowerOfTwo;
    PowerPositive(region.requested);
    PowerPositive(p.maxAlign);
    AlignedAsAsked(p, region.requested, a);
  }

  /** When every object has been destroyed, all memory has been freed. */
  lemma NoLeak(p: Platform, r: Run)
    requires IsRun(p, r) && forall i | 0 <= i < |End(p, r).pool| :: End(p, r).pool[i].Ended?
    ensures End(p, r).live == map[]
  {
    hide Owners;
    MemoryInv(p, r);
    var m := End(p, r);
    forall a ensures a !in m.live { NothingOwned(m.pool, FreeCall(a)); }
  }

  // ----- Runs that do something

  /** A request for the first CPU that the heap answers is served, and one that it refuses is not. */
  lemma RequestsAreServed(p: Platform, m: Memory, bytes: nat, k: nat, data: Address)
    requires p.Valid() && 0 < bytes <= 0x7FFF_FFFF_FFFF_FFFF
    requires p.pointer <= p.maxAlign || p.pointer <= Pow2(k)
    ensures var refused := Request(bytes, Pow2(k), Device(CPU, 0), None);
      Possible(p, m, refused) && Next(p, m, refused) == m
    ensures Placeable(m.live, data, if Pow2(k) >= p.maxAlign then Pow2(k) else p.maxAlign, bytes) ==>
              var served := Request(bytes, Pow2(k), Device(CPU, 0), Some(data));
              && Possible(p, m, served)
              && var m' := Next(p, m, served);
                 && m'.pool == m.pool + [Live(Contents(Allocation(data, bytes, Device(CPU, 0)), 0, Some(FREE)))]
                 && data in m'.live && m'.live[data].bytes == bytes && m'.live - {data} == m.live - {data}
  {
    OutcomeServed(p, bytes, k, None);
    OutcomeServed(p, bytes, k, Some(data));
    hide Pow2, IsPowerOfTwo, Outcome, Apart;
  }

  lemma OutcomeServed(p: Platform, bytes: nat, k: nat, answer: Option<Address>)
    requires p.Valid() && 0 < bytes <= 0x7FFF_FFFF_FFFF_FFFF
    requires p.pointer <= p.maxAlign || p.pointer <= Pow2(k)
    ensures var outcome := Outcome(p, bytes, Pow2(k), Device(CPU, 0), answer);
      if answer.None? then outcome == Err(ResourceExhausted)
      else outcome == Ok(Contents(Allocation(answer.value, bytes, Device(CPU, 0)), 0, Some(FREE)))
  {
    BitTrickIff(Pow2(k));
    Limits();
    hide Pow2, IsPowerOfTwo;
  }

  ghost predicate ContinuesRun(r: Run, s: Run) { s == r || (s.Then? && ContinuesRun(r, s.prev)) }

  /** Every run can be continued so that all memory is freed. */
  lemma AllCanBeFreed(p: Platform, r: Run) returns (s: Run)
    requires IsRun(p, r)
    ensures IsRun(p, s) && ContinuesRun(r, s) && End(p, s).live == map[]
  {
    s := FirstCanEnd(p, r, |End(p, r).pool|);
    NoLeak(p, s);
  }

  lemma {:induction false} FirstCanEnd(p: Platform, r: Run, n: nat) returns (s: Run)
    requires IsRun(p, r) && n <= |End(p, r).pool|
    ensures IsRun(p, s) && ContinuesRun(r, s) && |End(p, s).pool| == |End(p, r).pool|
    ensures forall i | 0 <= i < n :: End(p, s).pool[i].Ended?
  {
    if n == 0 {
      s := r;
    } else {
      s := FirstCanEnd(p, r, n - 1);
      if End(p, s).pool[n - 1].Live? { s := Then(s, Use(Destroy(n - 1))); }
    }
  }
}
