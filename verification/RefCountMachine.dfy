/**
 Intrusive reference counting as a small-step machine.

 Every step is one atomic access to a control block, one dereference of a target, one `delete`, or
 one local update of a handle by the thread that owns it. Threads interleave freely under
 sequential consistency; a compare-and-swap may fail spuriously. A step that touches a freed
 control block, or reads or deletes a destroyed target, does not get stuck: it sets `ub`.
 */
module RefCountMachine {
  import opened Core

  type Tid = nat
  type BlockId = nat

  /** The target owned by a block: under construction, usable, in its destructor, destroyed. */
  datatype Life = Constructing | Alive | Dying | Gone

  /**
   A control block together with the lifetime of its target. `deletes` counts the executions of
   `delete target`, `frees` those of `delete control`.
   */
  datatype Block = Block(
    strong: nat, weak: nat, target: Option<BlockId>,
    life: Life, deletes: nat, frees: nat)

  /** The name of an `IntrusivePtr` or of a `WeakIntrusivePtr` object. */
  datatype Handle = Strong(id: nat) | Weak(id: nat)

  /**
   The pointer stored in a handle. A target and its control block are named by the same `BlockId`.
   `Counted` and `Uncounted` hold the same pointer: the mark records whether the constructor of the
   handle has finished its retain. `owner` is the thread running that constructor, the only one that
   can reach the object yet.
   */
  datatype Cell =
    | Null
    | Counted(b: BlockId)
    | Uncounted(b: BlockId, owner: Tid)
    | Building(owner: Tid)

  /** The next step of an operation in progress, with the count or pointer it has read. */
  datatype Point =
    // IntrusivePtr(const IntrusivePtr&)
    | CopyDeref | CopyLoad | CopyCas(seen: nat)
    // IntrusivePtr::reset, release_strong_ref and the destructor of the target
    | RelDeref | RelSub | RelExchange | RelDelete(victim: Option<BlockId>) | BaseDtor
    // release_weak_ref
    | WeakSub | FreeBlock
    // WeakIntrusivePtr(const IntrusivePtr&), WeakIntrusivePtr(const WeakIntrusivePtr&)
    | WeakDeref | WeakLoad | WeakCas(seen: nat)
    // WeakIntrusivePtr::lock
    | LockLoad | LockCas(seen: nat) | LockTarget
    // make_intrusive, and stack unwinding after a throwing constructor
    | Construct | UnwindDtor
    // IntrusivePtr::use_count, WeakIntrusivePtr::expired
    | UseDeref | UseLoad | ExpiredLoad

  /** An operation in progress: the handle it reads, the handle it constructs and its block. */
  datatype Op = Op(at: Point, src: Option<Handle>, dst: Option<Handle>, b: BlockId)

  /** An absent thread is between operations; an absent handle is not constructed. */
  datatype State = State(
    blocks: map<BlockId, Block>,
    handles: map<Handle, Cell>,
    ops: map<Tid, Op>,
    ub: bool,
    terminated: bool)

  const Init := State(map[], map[], map[], false, false)

  /** What a thread may do: start an operation when it has none, or resume the one it is in. */
  datatype Action =
    | Default(dst: Handle)
    | Make(dst: Handle, b: BlockId)
    | Copy(src: Handle, dst: Handle)
    | Move(src: Handle, dst: Handle)
    | Swap(src: Handle, dst: Handle)
    | Reset(src: Handle)
    | End(src: Handle)
    | Lock(src: Handle, dst: Handle)
    | UseCount(src: Handle)
    | Expired(src: Handle)
    | Resume(spurious: bool, throws: bool)

  // ----- Access to handles

  predicate SameKind(h: Handle, k: Handle) { h.Strong? == k.Strong? }

  /** `h` is a finished object and no operation in progress reads it. */
  predicate Free(s: State, h: Handle) {
    && h in s.handles
    && (s.handles[h].Null? || s.handles[h].Counted?)
    && forall t | t in s.ops :: s.ops[t].src != Some(h)
  }

  /** `h` is a finished object, possibly read by several threads. */
  predicate Readable(s: State, h: Handle) {
    h in s.handles && (s.handles[h].Null? || s.handles[h].Counted?)
  }

  // ----- Building blocks of a step

  function Crash(s: State): State { s.(ub := true) }

  function Goto(s: State, t: Tid, op: Op): State { s.(ops := s.ops[t := op]) }

  function Finish(s: State, t: Tid): State { s.(ops := s.ops - {t}) }

  function SetBlock(s: State, b: BlockId, block: Block): State { s.(blocks := s.blocks[b := block]) }

  function SetHandle(s: State, h: Handle, c: Cell): State { s.(handles := s.handles[h := c]) }

  /** The control block may be accessed: it was allocated and not freed. */
  predicate BlockUsable(s: State, b: BlockId) { b in s.blocks && s.blocks[b].frees == 0 }

  /** `target->control_` may be read: the destructor of the target has not begun. */
  predicate TargetUsable(s: State, b: BlockId) {
    b in s.blocks && (s.blocks[b].life == Constructing || s.blocks[b].life == Alive)
  }

  /** `size_t` arithmetic wraps around. */
  function Inc(n: nat): nat { if n >= SIZE_MAX then 0 else n + 1 }
  function Dec(n: nat): nat { if n == 0 then SIZE_MAX else n - 1 }

  // ----- The steps

  /** Resumes the operation of `t`. */
  function Continue(s: State, t: Tid, spurious: bool, throws: bool): State
    requires t in s.ops
  {
    var op, b := s.ops[t], s.ops[t].b;
    match op.at
    case CopyDeref => if TargetUsable(s, b) then Advance(s, t, CopyLoad) else Crash(s)
    case CopyLoad => if BlockUsable(s, b) then Advance(s, t, CopyCas(s.blocks[b].strong)) else Crash(s)
    case CopyCas(seen) =>
      if seen == SIZE_MAX then s.(terminated := true)
      else if !BlockUsable(s, b) then Crash(s)
      else if s.blocks[b].strong == seen && !spurious then
        Publish(SetBlock(s, b, s.blocks[b].(strong := Inc(seen))), t, Counted(b))
      else Advance(s, t, CopyCas(s.blocks[b].strong))

    case RelDeref => if TargetUsable(s, b) then Advance(s, t, RelSub) else Crash(s)
    case RelSub =>
      if !BlockUsable(s, b) then Crash(s)
      else
        var s1 := SetBlock(s, b, s.blocks[b].(strong := Dec(s.blocks[b].strong)));
        if s.blocks[b].strong == 1 then Advance(s1, t, RelExchange) else Finish(s1, t)
    case RelExchange =>
      if !BlockUsable(s, b) then Crash(s)
      else Advance(SetBlock(s, b, s.blocks[b].(target := None)), t, RelDelete(s.blocks[b].target))
    case RelDelete(victim) =>
      if victim == None then Finish(s, t)
      else
        var x := victim.value;
        if x !in s.blocks || s.blocks[x].life != Alive then Crash(s)
        else
          var s1 := SetBlock(s, x, s.blocks[x].(life := Dying, deletes := s.blocks[x].deletes + 1));
          Goto(s1, t, Op(BaseDtor, None, None, x))
    case BaseDtor => DropImplicit(s, t, b)

    case WeakSub =>
      if !BlockUsable(s, b) then Crash(s)
      else
        var s1 := SetBlock(s, b, s.blocks[b].(weak := Dec(s.blocks[b].weak)));
        if s.blocks[b].weak == 1 then Advance(s1, t, FreeBlock) else Finish(s1, t)
    case FreeBlock =>
      if !BlockUsable(s, b) then Crash(s)
      else Finish(SetBlock(s, b, s.blocks[b].(frees := s.blocks[b].frees + 1)), t)

    case WeakDeref =>
      if !TargetUsable(s, b) || op.dst == None then Crash(s)
      else Advance(SetHandle(s, op.dst.value, Uncounted(b, t)), t, WeakLoad)
    case WeakLoad => if BlockUsable(s, b) then Advance(s, t, WeakCas(s.blocks[b].weak)) else Crash(s)
    case WeakCas(seen) =>
      if seen == SIZE_MAX then s.(terminated := true)
      else if !BlockUsable(s, b) then Crash(s)
      else if s.blocks[b].weak == seen && !spurious then
        Publish(SetBlock(s, b, s.blocks[b].(weak := Inc(seen))), t, Counted(b))
      else Advance(s, t, WeakCas(s.blocks[b].weak))

    case LockLoad => if BlockUsable(s, b) then TryLock(s, t, s.blocks[b].strong) else Crash(s)
    case LockCas(seen) =>
      if !BlockUsable(s, b) then Crash(s)
      else if s.blocks[b].strong == seen && !spurious then
        Advance(SetBlock(s, b, s.blocks[b].(strong := Inc(seen))), t, LockTarget)
      else TryLock(s, t, s.blocks[b].strong)
    case LockTarget =>
      if !BlockUsable(s, b) then Crash(s)
      else Publish(s, t, if s.blocks[b].target == None then Null else Counted(s.blocks[b].target.value))

    case Construct =>
      if b !in s.blocks || op.dst == None then Crash(s)
      else if throws then
        var s1 := SetBlock(s, b, s.blocks[b].(life := Dying));
        Goto(s1.(handles := s1.handles - {op.dst.value}), t, Op(UnwindDtor, None, None, b))
      else Publish(SetBlock(s, b, s.blocks[b].(life := Alive)), t, Counted(b))
    case UnwindDtor => DropImplicit(s, t, b)

    case UseDeref => if TargetUsable(s, b) then Advance(s, t, UseLoad) else Crash(s)
    case UseLoad => if BlockUsable(s, b) then Finish(s, t) else Crash(s)
    case ExpiredLoad => if BlockUsable(s, b) then Finish(s, t) else Crash(s)
  }

  /** The operation of `t` moves on to another point. */
  function Advance(s: State, t: Tid, at: Point): State
    requires t in s.ops
  {
    Goto(s, t, s.ops[t].(at := at))
  }

  /** The operation of `t` ends with the handle it constructs holding `c`. */
  function Publish(s: State, t: Tid, c: Cell): State
    requires t in s.ops
  {
    if s.ops[t].dst == None then Crash(s) else Finish(SetHandle(s, s.ops[t].dst.value, c), t)
  }

  /** The loop test of `try_retain_strong_ref` on the count just observed. */
  function TryLock(s: State, t: Tid, seen: nat): State
    requires t in s.ops
  {
    if seen != 0 then Advance(s, t, LockCas(seen)) else Publish(s, t, Null)
  }

  /** The base destructor of a target: it gives up the implicit weak reference. */
  function DropImplicit(s: State, t: Tid, b: BlockId): State
    requires t in s.ops
  {
    if !BlockUsable(s, b) then Crash(s)
    else
      var s1 := SetBlock(s, b, s.blocks[b].(weak := Dec(s.blocks[b].weak), life := Gone));
      if s.blocks[b].weak == 1 then Advance(s1, t, FreeBlock) else Finish(s1, t)
  }

  /** When `t` may perform `a`. A handle is changed by one thread at a time and not while it is read. */
  predicate Enabled(s: State, t: Tid, a: Action) {
    && !s.ub && !s.terminated
    && (a.Resume? <==> t in s.ops)
    && match a
       case Default(dst) => dst !in s.handles
       case Make(dst, b) => dst.Strong? && dst !in s.handles && b !in s.blocks
       case Copy(src, dst) => Readable(s, src) && dst !in s.handles && (src.Weak? ==> dst.Weak?)
       case Move(src, dst) =>
         Free(s, src) && src != dst && SameKind(src, dst)
         && (dst !in s.handles || (Free(s, dst) && s.handles[dst] == Null))
       case Swap(src, dst) => Free(s, src) && Free(s, dst) && SameKind(src, dst)
       case Reset(src) => Free(s, src)
       case End(src) => Free(s, src) && s.handles[src] == Null
       case Lock(src, dst) => src.Weak? && Readable(s, src) && dst.Strong? && dst !in s.handles
       case UseCount(src) => src.Strong? && Readable(s, src)
       case Expired(src) => src.Weak? && Readable(s, src)
       case Resume(_, _) => true
  }

  /** The state after `t` performs `a`. */
  function Apply(s: State, t: Tid, a: Action): State
    requires Enabled(s, t, a)
  {
    match a
    case Default(dst) => SetHandle(s, dst, Null)
    case Make(dst, b) =>
      var s1 := SetHandle(SetBlock(s, b, Block(1, 1, Some(b), Constructing, 0, 0)), dst, Building(t));
      Goto(s1, t, Op(Construct, None, Some(dst), b))
    case Copy(src, dst) =>
      if s.handles[src].Null? then SetHandle(s, dst, Null)
      else
        var b := s.handles[src].b;
        var at := if dst.Strong? then CopyDeref else if src.Strong? then WeakDeref else WeakLoad;
        var cell := if at == WeakDeref then Building(t) else Uncounted(b, t);
        Goto(SetHandle(s, dst, cell), t, Op(at, Some(src), Some(dst), b))
    case Move(src, dst) => SetHandle(SetHandle(s, dst, s.handles[src]), src, Null)
    case Swap(src, dst) => SetHandle(SetHandle(s, src, s.handles[dst]), dst, s.handles[src])
    case Reset(src) =>
      if s.handles[src].Null? then s
      else Goto(SetHandle(s, src, Null), t, Op(if src.Strong? then RelDeref else WeakSub, None, None, s.handles[src].b))
    case End(src) => s.(handles := s.handles - {src})
    case Lock(src, dst) =>
      if s.handles[src].Null? then SetHandle(s, dst, Null)
      else Goto(SetHandle(s, dst, Building(t)), t, Op(LockLoad, Some(src), Some(dst), s.handles[src].b))
    case UseCount(src) =>
      if s.handles[src].Null? then s else Goto(s, t, Op(UseDeref, Some(src), None, s.handles[src].b))
    case Expired(src) =>
      if s.handles[src].Null? then s else Goto(s, t, Op(ExpiredLoad, Some(src), None, s.handles[src].b))
    case Resume(spurious, throws) => Continue(s, t, spurious, throws)
  }

  // ----- Who holds references

  /** The finished handles of one kind that hold a reference to `b`. */
  function StrongHolders(m: map<Handle, Cell>, b: BlockId): set<Handle> {
    set h | h in m && h.Strong? && m[h] == Counted(b)
  }

  function WeakHolders(m: map<Handle, Cell>, b: BlockId): set<Handle> {
    set h | h in m && h.Weak? && m[h] == Counted(b)
  }

  /** What an operation in progress holds or owes on a block. */
  datatype Role =
    | Retained   // a strong reference that no handle shows
    | Initial    // the initial strong count of a target whose constructor has not succeeded
    | WeakOwed   // a weak reference that no handle shows
    | Implicit   // the implicit weak reference, once the strong count has reached 0 or the constructor threw
    | Freeing    // the duty to free the block

  /** The role of an operation at a point on its block. */
  predicate InRole(at: Point, r: Role) {
    match r
    case Retained => at.RelDeref? || at.RelSub? || at.LockTarget?
    case Initial => at.Construct? || at.UnwindDtor?
    case WeakOwed => at.WeakSub?
    case Implicit => at.RelExchange? || at.RelDelete? || at.BaseDtor? || at.UnwindDtor?
    case Freeing => at.FreeBlock?
  }

  predicate Holds(op: Op, r: Role, b: BlockId) { op.b == b && InRole(op.at, r) }

  /** The threads in role `r` on block `b`. */
  function Doing(ops: map<Tid, Op>, r: Role, b: BlockId): set<Tid> {
    Select(ops, HoldsFn(r, b))
  }

  function HoldsFn(r: Role, b: BlockId): Op -> bool { (op: Op) => Holds(op, r, b) }

  function Select<K, V>(m: map<K, V>, p: V -> bool): set<K> { set k | k in m && p(m[k]) }

  /** The strong references to each block that handles show or threads hold fit a `size_t`. */
  predicate Bounded(s: State) {
    forall b | b in s.blocks ::
      |StrongHolders(s.handles, b)| + |Doing(s.ops, Retained, b)| <= SIZE_MAX
  }
}
