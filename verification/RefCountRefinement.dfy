/** Every step of the reference counting machine is one event of the owner-set specification. */
module RefCountRefinement {
  import opened Core
  import opened RefCountMachine
  import opened RefCountInvariant
  import opened RefCountSteps
  import opened Spec = RefCountSpec

  function FateOf(life: Life): Fate {
    match life
    case Constructing => Pending
    case Alive => Usable
    case _ => Destroyed
  }

  function ObjectOf(s: State, b: BlockId): Object requires b in s.blocks {
    Object(Owners(StrongHolders(s.handles, b), Doing(s.ops, Retained, b)),
           Owners(WeakHolders(s.handles, b), Doing(s.ops, WeakOwed, b)),
           FateOf(s.blocks[b].life), s.blocks[b].frees > 0)
  }

  function Abs(s: State): Spec.Spec { map b | b in s.blocks :: ObjectOf(s, b) }

  /** The event a step stands for. The retry loops and the plain loads are silent. */
  function EventOf(s: State, t: Tid, a: Action): Event
    requires Enabled(s, t, a)
  {
    match a
    case Make(_, b) => Create(b)
    case Move(src, dst) => Exchange(src, dst)
    case Swap(src, dst) => Exchange(src, dst)
    case Reset(src) => if s.handles[src].Counted? then Take(s.handles[src].b, src, t) else Silent
    case Resume(spurious, throws) => ResumeEvent(s, s.ops[t], t, spurious, throws)
    case _ => Silent
  }

  function ResumeEvent(s: State, op: Op, t: Tid, spurious: bool, throws: bool): Event {
    var b := op.b;
    if b !in s.blocks then Silent
    else
      match op.at
      case CopyCas(seen) =>
        if seen != SIZE_MAX && s.blocks[b].strong == seen && !spurious && op.src.Some? && op.dst.Some?
        then Retain(b, op.src.value, op.dst.value) else Silent
      case WeakCas(seen) =>
        if seen != SIZE_MAX && s.blocks[b].weak == seen && !spurious && op.src.Some? && op.dst.Some?
        then Retain(b, op.src.value, op.dst.value) else Silent
      case RelSub => Drop(b, t)
      case RelDelete(_) => Destroy(b)
      case WeakSub => DropWeak(b, t)
      case FreeBlock => Reclaim(b)
      case LockLoad =>
        if s.blocks[b].strong == 0 && op.src.Some? then LockMiss(b, op.src.value) else Silent
      case LockCas(seen) =>
        if op.src.None? then Silent
        else if s.blocks[b].strong == seen && !spurious then LockHit(b, op.src.value, t)
        else if s.blocks[b].strong == 0 then LockMiss(b, op.src.value) else Silent
      case LockTarget => if op.dst.Some? then Give(b, t, op.dst.value) else Silent
      case Construct => if throws then Abandon(b) else if op.dst.Some? then Publish(b, op.dst.value) else Silent
      case _ => Silent
  }

  // ----- How a local change shows in the owner sets

  lemma OwnersChange(s: State, s': State, t: Tid, h: Handle, b: BlockId)
    requires s'.ops - {t} == s.ops - {t} && s'.handles - {h} == s.handles - {h}
    ensures StrongHolders(s'.handles, b)
         == if h.Strong? && HasCell(s'.handles, h, Counted(b)) then StrongHolders(s.handles, b) + {h}
            else StrongHolders(s.handles, b) - {h}
    ensures WeakHolders(s'.handles, b)
         == if h.Weak? && HasCell(s'.handles, h, Counted(b)) then WeakHolders(s.handles, b) + {h}
            else WeakHolders(s.handles, b) - {h}
    ensures Doing(s'.ops, Retained, b)
         == if Does(s'.ops, t, Retained, b) then Doing(s.ops, Retained, b) + {t} else Doing(s.ops, Retained, b) - {t}
    ensures Doing(s'.ops, WeakOwed, b)
         == if Does(s'.ops, t, WeakOwed, b) then Doing(s.ops, WeakOwed, b) + {t} else Doing(s.ops, WeakOwed, b) - {t}
    ensures h in StrongHolders(s.handles, b) <==> h.Strong? && HasCell(s.handles, h, Counted(b))
    ensures h in WeakHolders(s.handles, b) <==> h.Weak? && HasCell(s.handles, h, Counted(b))
    ensures t in Doing(s.ops, Retained, b) <==> Does(s.ops, t, Retained, b)
    ensures t in Doing(s.ops, WeakOwed, b) <==> Does(s.ops, t, WeakOwed, b)
  {
    HolderChange(s.handles, s'.handles, h, b);
    DoingChange(s.ops, s'.ops, t, Retained, b);
    DoingChange(s.ops, s'.ops, t, WeakOwed, b);
  }

  lemma HolderChange(m: map<Handle, Cell>, m': map<Handle, Cell>, h: Handle, b: BlockId)
    requires m' - {h} == m - {h}
    ensures StrongHolders(m', b)
         == if h.Strong? && HasCell(m', h, Counted(b)) then StrongHolders(m, b) + {h} else StrongHolders(m, b) - {h}
    ensures WeakHolders(m', b)
         == if h.Weak? && HasCell(m', h, Counted(b)) then WeakHolders(m, b) + {h} else WeakHolders(m, b) - {h}
  {
    forall k | k != h ensures (k in m <==> k in m') && (k in m ==> m'[k] == m[k]) { Elsewhere(m, m', h, k); }
  }

  lemma DoingChange(ops: map<Tid, Op>, ops': map<Tid, Op>, t: Tid, r: Role, b: BlockId)
    requires ops' - {t} == ops - {t}
    ensures Doing(ops', r, b) == if Does(ops', t, r, b) then Doing(ops, r, b) + {t} else Doing(ops, r, b) - {t}
    ensures t in Doing(ops, r, b) <==> Does(ops, t, r, b)
  {
    hide Doing;
    DoingDone(ops, t, r, b);
    DoingDone(ops', t, r, b);
    DoingMember(ops, t, r, b);
    DoingMember(ops', t, r, b);
    Toggle(Doing(ops, r, b), Doing(ops', r, b), t);
  }

  lemma Toggle<T>(before: set<T>, after: set<T>, x: T)
    requires before - {x} == after - {x}
    ensures after == if x in after then before + {x} else before - {x}
  {
    assert before + {x} == (before - {x}) + {x};
    assert after == if x in after then (after - {x}) + {x} else after - {x};
  }

  lemma DoingMember(ops: map<Tid, Op>, t: Tid, r: Role, b: BlockId)
    ensures t in Doing(ops, r, b) <==> Does(ops, t, r, b)
  {
  }

  /** A step that changes nothing but one block, its owners included, is an event of that block. */
  lemma LocalEvent(s: State, s': State, t: Tid, h: Handle, b: BlockId, e: Event)
    requires LocalChange(s, s', t, h, b) && b in s.blocks
    requires !e.Silent? && !e.Create? && !e.Exchange? && e.b == b
    requires Allowed(ObjectOf(s, b), e) && ObjectOf(s', b) == Effect(ObjectOf(s, b), e)
    ensures Happens(Abs(s), e, Abs(s'))
  {
    hide ObjectOf, Allowed, Effect, StrongHolders, WeakHolders, Doing;
    forall x | x in s.blocks && x != b ensures ObjectOf(s', x) == ObjectOf(s, x) { LocalElsewhere(s, s', t, h, b, x); }
    assert Abs(s') == Abs(s)[b := Effect(Abs(s)[b], e)];
  }

  lemma LocalSilent(s: State, s': State, t: Tid, h: Handle, b: BlockId)
    requires LocalChange(s, s', t, h, b) && b in s.blocks && ObjectOf(s', b) == ObjectOf(s, b)
    ensures Abs(s') == Abs(s)
  {
    hide ObjectOf, StrongHolders, WeakHolders, Doing;
    forall x | x in s.blocks && x != b ensures ObjectOf(s', x) == ObjectOf(s, x) { LocalElsewhere(s, s', t, h, b, x); }
  }

  lemma LocalElsewhere(s: State, s': State, t: Tid, h: Handle, b: BlockId, x: BlockId)
    requires LocalChange(s, s', t, h, b) && x in s.blocks && x != b
    ensures x in s'.blocks && ObjectOf(s', x) == ObjectOf(s, x)
  {
    hide StrongHolders, WeakHolders, Doing;
    if s'.handles == s.handles {
      DoingChange(s.ops, s'.ops, t, Retained, x);
      DoingChange(s.ops, s'.ops, t, WeakOwed, x);
    } else {
      OwnersChange(s, s', t, h, x);
    }
  }

  // ----- The steps inside an operation

  lemma SilentStep(s: State, s': State, t: Tid)
    requires Inv(s) && t in s.ops && LocalChange(s, s', t, Strong(0), s.ops[t].b) && s'.handles == s.handles
    requires forall r | r == Retained || r == WeakOwed ::
               Does(s'.ops, t, r, s.ops[t].b) == Does(s.ops, t, r, s.ops[t].b)
    requires s.ops[t].b in s.blocks
    requires FateOf(s'.blocks[s.ops[t].b].life) == FateOf(s.blocks[s.ops[t].b].life)
    requires (s'.blocks[s.ops[t].b].frees > 0) == (s.blocks[s.ops[t].b].frees > 0)
    ensures Happens(Abs(s), Silent, Abs(s'))
  {
    hide StrongHolders, WeakHolders, Doing, Inv, Does, Abs;
    var b := s.ops[t].b;
    DoingChange(s.ops, s'.ops, t, Retained, b);
    DoingChange(s.ops, s'.ops, t, WeakOwed, b);
    LocalSilent(s, s', t, Strong(0), b);
  }

  lemma RefineCopyCas(s: State, t: Tid)
    requires Inv(s) && t in s.ops && s.ops[t].at.CopyCas? && s.ops[t].at.seen != SIZE_MAX
    requires s.ops[t].b in s.blocks && s.ops[t].at.seen == s.blocks[s.ops[t].b].strong
    ensures Happens(Abs(s), ResumeEvent(s, s.ops[t], t, false, false), Abs(Continue(s, t, false, false)))
  {
    hide StrongHolders, WeakHolders, Doing, Inv, TallyOf, Abs, Happens;
    Protected(s, t);
    var b, h, s' := s.ops[t].b, s.ops[t].dst.value, Continue(s, t, false, false);
    OwnersChange(s, s', t, h, b);
    HolderMember(s.handles, s.ops[t].src.value, b);
    LocalEvent(s, s', t, h, b, Retain(b, s.ops[t].src.value, h));
  }

  lemma HolderMember(m: map<Handle, Cell>, h: Handle, b: BlockId)
    ensures h in StrongHolders(m, b) <==> h.Strong? && HasCell(m, h, Counted(b))
    ensures h in WeakHolders(m, b) <==> h.Weak? && HasCell(m, h, Counted(b))
  {
  }

  lemma RefineWeakCas(s: State, t: Tid)
    requires Inv(s) && t in s.ops && s.ops[t].at.WeakCas? && s.ops[t].at.seen != SIZE_MAX
    requires s.ops[t].b in s.blocks && s.ops[t].at.seen == s.blocks[s.ops[t].b].weak
    ensures Happens(Abs(s), ResumeEvent(s, s.ops[t], t, false, false), Abs(Continue(s, t, false, false)))
  {
    hide StrongHolders, WeakHolders, Doing, Inv, TallyOf, Abs, Happens;
    Protected(s, t);
    var b, h, s' := s.ops[t].b, s.ops[t].dst.value, Continue(s, t, false, false);
    OwnersChange(s, s', t, h, b);
    HolderMember(s.handles, s.ops[t].src.value, b);
    LocalEvent(s, s', t, h, b, Retain(b, s.ops[t].src.value, h));
  }

  /** The steps that end or change what a thread owes, without touching a handle. */
  lemma RefineRelease(s: State, t: Tid)
    requires Inv(s) && t in s.ops && (s.ops[t].at.RelSub? || s.ops[t].at.WeakSub?)
    ensures Happens(Abs(s), ResumeEvent(s, s.ops[t], t, false, false), Abs(Continue(s, t, false, false)))
  {
    hide StrongHolders, WeakHolders, Doing, Inv, TallyOf, Abs, Happens;
    Protected(s, t);
    var b, s' := s.ops[t].b, Continue(s, t, false, false);
    DoingChange(s.ops, s'.ops, t, Retained, b);
    DoingChange(s.ops, s'.ops, t, WeakOwed, b);
    LocalEvent(s, s', t, Strong(0), b, if s.ops[t].at.RelSub? then Drop(b, t) else DropWeak(b, t));
  }

  /** An empty tally is an empty set of owners. */
  lemma TallyEmpty(s: State, b: BlockId)
    requires b in s.blocks
    ensures TallyOf(s, b).handles + TallyOf(s, b).retained == 0 <==> ObjectOf(s, b).strong.Empty()
    ensures TallyOf(s, b).weak + TallyOf(s, b).owed == 0 <==> ObjectOf(s, b).weak.Empty()
  {
    hide StrongHolders, WeakHolders, Doing;
  }

  lemma RefineDelete(s: State, t: Tid)
    requires Inv(s) && t in s.ops && s.ops[t].at.RelDelete?
    ensures Happens(Abs(s), ResumeEvent(s, s.ops[t], t, false, false), Abs(Continue(s, t, false, false)))
  {
    hide StrongHolders, WeakHolders, Doing, Inv, TallyOf, Abs, Happens;
    Protected(s, t);
    var b, s' := s.ops[t].b, Continue(s, t, false, false);
    TallyEmpty(s, b);
    DoingChange(s.ops, s'.ops, t, Retained, b);
    DoingChange(s.ops, s'.ops, t, WeakOwed, b);
    LocalEvent(s, s', t, Strong(0), b, Destroy(b));
  }

  lemma RefineFree(s: State, t: Tid)
    requires Inv(s) && t in s.ops && s.ops[t].at.FreeBlock?
    ensures Happens(Abs(s), ResumeEvent(s, s.ops[t], t, false, false), Abs(Continue(s, t, false, false)))
  {
    hide StrongHolders, WeakHolders, Doing, Inv, TallyOf, Abs, Happens;
    Protected(s, t);
    Witness(s, t);
    var b, s' := s.ops[t].b, Continue(s, t, false, false);
    TallyEmpty(s, b);
    DoingChange(s.ops, s'.ops, t, Retained, b);
    DoingChange(s.ops, s'.ops, t, WeakOwed, b);
    LocalEvent(s, s', t, Strong(0), b, Reclaim(b));
  }

  lemma RefineLockCas(s: State, t: Tid)
    requires Inv(s) && t in s.ops && s.ops[t].at.LockCas?
    requires s.ops[t].b in s.blocks && s.ops[t].at.seen == s.blocks[s.ops[t].b].strong
    ensures Happens(Abs(s), ResumeEvent(s, s.ops[t], t, false, false), Abs(Continue(s, t, false, false)))
  {
    hide StrongHolders, WeakHolders, Doing, Inv, TallyOf, Abs, Happens;
    Protected(s, t);
    LockAlive(s, t);
    var b, s' := s.ops[t].b, Continue(s, t, false, false);
    TallyEmpty(s, b);
    DoingChange(s.ops, s'.ops, t, Retained, b);
    DoingChange(s.ops, s'.ops, t, WeakOwed, b);
    HolderMember(s.handles, s.ops[t].src.value, b);
    LocalEvent(s, s', t, Strong(0), b, LockHit(b, s.ops[t].src.value, t));
  }

  lemma RefineLockMiss(s: State, t: Tid, spurious: bool, throws: bool)
    requires Inv(s) && t in s.ops && (s.ops[t].at.LockLoad? || s.ops[t].at.LockCas?)
    requires s.ops[t].b in s.blocks && s.blocks[s.ops[t].b].strong == 0
    ensures s.ops[t].src.Some?
    ensures Happens(Abs(s), LockMiss(s.ops[t].b, s.ops[t].src.value), Abs(Continue(s, t, spurious, throws)))
  {
    hide StrongHolders, WeakHolders, Doing, Inv, TallyOf, Abs, Happens;
    Protected(s, t);
    var b, h, s' := s.ops[t].b, s.ops[t].dst.value, Continue(s, t, spurious, throws);
    TallyEmpty(s, b);
    OwnersChange(s, s', t, h, b);
    HolderMember(s.handles, s.ops[t].src.value, b);
    LocalEvent(s, s', t, h, b, LockMiss(b, s.ops[t].src.value));
  }

  lemma RefineLockTarget(s: State, t: Tid)
    requires Inv(s) && t in s.ops && s.ops[t].at.LockTarget?
    ensures Happens(Abs(s), ResumeEvent(s, s.ops[t], t, false, false), Abs(Continue(s, t, false, false)))
  {
    hide StrongHolders, WeakHolders, Doing, Inv, TallyOf, Abs, Happens;
    Protected(s, t);
    var b, h, s' := s.ops[t].b, s.ops[t].dst.value, Continue(s, t, false, false);
    OwnersChange(s, s', t, h, b);
    LocalEvent(s, s', t, h, b, Give(b, t, h));
  }

  lemma RefineConstruct(s: State, t: Tid, throws: bool)
    requires Inv(s) && t in s.ops && s.ops[t].at.Construct?
    ensures Happens(Abs(s), ResumeEvent(s, s.ops[t], t, false, throws), Abs(Continue(s, t, false, throws)))
  {
    hide StrongHolders, WeakHolders, Doing, Inv, TallyOf, Abs, Happens;
    Protected(s, t);
    var b, h, s' := s.ops[t].b, s.ops[t].dst.value, Continue(s, t, false, throws);
    TallyEmpty(s, b);
    OwnersChange(s, s', t, h, b);
    LocalEvent(s, s', t, h, b, if throws then Abandon(b) else Publish(b, h));
  }

  lemma SilentHappens(s: State, s': State)
    requires Abs(s') == Abs(s)
    ensures Happens(Abs(s), Silent, Abs(s'))
  {
  }

  lemma RefineWeakDeref(s: State, t: Tid)
    requires Inv(s) && t in s.ops && s.ops[t].at.WeakDeref?
    ensures Happens(Abs(s), Silent, Abs(Continue(s, t, false, false)))
  {
    hide StrongHolders, WeakHolders, Doing, Inv, TallyOf, Abs;
    Protected(s, t);
    var b, h, s' := s.ops[t].b, s.ops[t].dst.value, Continue(s, t, false, false);
    OwnersChange(s, s', t, h, b);
    LocalSilent(s, s', t, h, b);
    SilentHappens(s, s');
  }

  /** A failed compare-and-swap, or a load before one. */
  lemma RefineRetry(s: State, t: Tid, spurious: bool, throws: bool)
    requires Inv(s) && t in s.ops && s.ops[t].b in s.blocks
    requires var at, block := s.ops[t].at, s.blocks[s.ops[t].b];
      || (at.CopyCas? && at.seen != SIZE_MAX && (at.seen != block.strong || spurious))
      || (at.WeakCas? && at.seen != SIZE_MAX && (at.seen != block.weak || spurious))
      || (at.LockCas? && block.strong != 0 && (at.seen != block.strong || spurious))
      || (at.LockLoad? && block.strong != 0)
    ensures Happens(Abs(s), Silent, Abs(Continue(s, t, spurious, throws)))
  {
    hide StrongHolders, WeakHolders, Doing, Inv, TallyOf, BlockOK, Abs, Happens;
    Protected(s, t);
    SilentStep(s, Continue(s, t, spurious, throws), t);
  }

  lemma RefineSilent(s: State, t: Tid, spurious: bool, throws: bool)
    requires Inv(s) && t in s.ops
    requires var at := s.ops[t].at;
      || at.CopyDeref? || at.CopyLoad? || at.RelDeref? || at.WeakLoad? || at.UseDeref? || at.UseLoad? || at.ExpiredLoad?
    ensures Happens(Abs(s), Silent, Abs(Continue(s, t, spurious, throws)))
  {
    hide StrongHolders, WeakHolders, Doing, Inv, TallyOf, BlockOK, Abs, Happens;
    Protected(s, t);
    SilentStep(s, Continue(s, t, spurious, throws), t);
  }

  /** The specification does not see how a destroyed target is taken apart. */
  lemma RefineTeardown(s: State, t: Tid, spurious: bool, throws: bool)
    requires Inv(s) && t in s.ops
    requires s.ops[t].at.RelExchange? || s.ops[t].at.BaseDtor? || s.ops[t].at.UnwindDtor?
    ensures Happens(Abs(s), Silent, Abs(Continue(s, t, spurious, throws)))
  {
    hide StrongHolders, WeakHolders, Doing, Inv, TallyOf, BlockOK, Abs, Happens;
    Protected(s, t);
    SilentStep(s, Continue(s, t, spurious, throws), t);
  }

  lemma RefineTerminated(s: State, t: Tid, spurious: bool, throws: bool)
    requires t in s.ops && (s.ops[t].at == CopyCas(SIZE_MAX) || s.ops[t].at == WeakCas(SIZE_MAX))
    ensures Happens(Abs(s), Silent, Abs(Continue(s, t, spurious, throws)))
  {
    hide StrongHolders, WeakHolders, Doing;
  }

  /** A spurious failure matters only to a compare-and-swap, an exception only to a constructor. */
  lemma ChoicesMatterLittle(s: State, t: Tid, spurious: bool, throws: bool)
    requires t in s.ops
    ensures var at := s.ops[t].at;
      var cas, ctor := at.CopyCas? || at.WeakCas? || at.LockCas?, at.Construct?;
      && Continue(s, t, spurious, throws) == Continue(s, t, cas && spurious, ctor && throws)
      && ResumeEvent(s, s.ops[t], t, spurious, throws) == ResumeEvent(s, s.ops[t], t, cas && spurious, ctor && throws)
  {
  }

  lemma ResumeRefines(s: State, t: Tid, spurious: bool, throws: bool)
    requires Inv(s) && t in s.ops
    ensures Happens(Abs(s), ResumeEvent(s, s.ops[t], t, spurious, throws), Abs(Continue(s, t, spurious, throws)))
  {
    hide StrongHolders, WeakHolders, Doing, Inv, TallyOf, BlockOK, Abs, Allowed, Effect, Continue, Happens;
    Protected(s, t);
    ChoicesMatterLittle(s, t, spurious, throws);
    var op, b := s.ops[t], s.ops[t].b;
    match op.at
    case CopyCas(seen) =>
      if seen == SIZE_MAX {
        RefineTerminated(s, t, spurious, throws);
      } else if s.blocks[b].strong == seen && !spurious {
        RefineCopyCas(s, t);
      } else {
        RefineRetry(s, t, spurious, throws);
      }
    case WeakCas(seen) =>
      if seen == SIZE_MAX {
        RefineTerminated(s, t, spurious, throws);
      } else if s.blocks[b].weak == seen && !spurious {
        RefineWeakCas(s, t);
      } else {
        RefineRetry(s, t, spurious, throws);
      }
    case RelSub => RefineRelease(s, t);
    case WeakSub => RefineRelease(s, t);
    case RelDelete(_) => RefineDelete(s, t);
    case FreeBlock => RefineFree(s, t);
    case LockLoad =>
      if s.blocks[b].strong == 0 {
        RefineLockMiss(s, t, spurious, throws);
      } else {
        RefineRetry(s, t, spurious, throws);
      }
    case LockCas(seen) =>
      if s.blocks[b].strong == seen && !spurious {
        RefineLockCas(s, t);
      } else if s.blocks[b].strong == 0 {
        RefineLockMiss(s, t, spurious, throws);
      } else {
        RefineRetry(s, t, spurious, throws);
      }
    case LockTarget => RefineLockTarget(s, t);
    case Construct => RefineConstruct(s, t, throws);
    case WeakDeref => RefineWeakDeref(s, t);
    case RelExchange => RefineTeardown(s, t, spurious, throws);
    case BaseDtor => RefineTeardown(s, t, spurious, throws);
    case UnwindDtor => RefineTeardown(s, t, spurious, throws);
    case _ => RefineSilent(s, t, spurious, throws);
  }

  // ----- The steps that start an operation

  /** `reset` hands the reference of its handle over to the thread. */
  lemma RefineReset(s: State, t: Tid, src: Handle)
    requires Inv(s) && Enabled(s, t, Reset(src)) && s.handles[src].Counted?
    ensures Happens(Abs(s), Take(s.handles[src].b, src, t), Abs(Apply(s, t, Reset(src))))
  {
    hide StrongHolders, WeakHolders, Doing, Inv, TallyOf, BlockOK, Abs, Happens;
    var s', b := Apply(s, t, Reset(src)), s.handles[src].b;
    BlockKnown(s, src);
    OwnersChange(s, s', t, src, b);
    LocalEvent(s, s', t, src, b, Take(b, src, t));
  }

  /** Starting to copy or to lock changes no owner. */
  lemma RefineBuild(s: State, t: Tid, a: Action)
    requires Inv(s) && Enabled(s, t, a) && (a.Copy? || a.Lock?) && s.handles[a.src].Counted?
    ensures Happens(Abs(s), Silent, Abs(Apply(s, t, a)))
  {
    hide StrongHolders, WeakHolders, Doing, Inv, TallyOf, BlockOK, Abs;
    var s', b := Apply(s, t, a), s.handles[a.src].b;
    BlockKnown(s, a.src);
    OwnersChange(s, s', t, a.dst, b);
    LocalSilent(s, s', t, a.dst, b);
  }

  lemma RefineRead(s: State, t: Tid, a: Action)
    requires Inv(s) && Enabled(s, t, a) && (a.UseCount? || a.Expired?) && s.handles[a.src].Counted?
    ensures Happens(Abs(s), Silent, Abs(Apply(s, t, a)))
  {
    hide StrongHolders, WeakHolders, Doing, Inv, TallyOf, BlockOK, Abs;
    var s', b := Apply(s, t, a), s.handles[a.src].b;
    BlockKnown(s, a.src);
    assert s'.ops - {t} == s.ops - {t};
    DoingChange(s.ops, s'.ops, t, Retained, b);
    DoingChange(s.ops, s'.ops, t, WeakOwed, b);
    LocalSilent(s, s', t, Strong(0), b);
  }

  lemma RefineNull(s: State, h: Handle, m': map<Handle, Cell>)
    requires h in s.handles ==> s.handles[h] == Null
    requires m' == s.handles[h := Null] || m' == s.handles - {h}
    ensures Abs(s.(handles := m')) == Abs(s)
  {
    hide StrongHolders, WeakHolders, Doing;
    forall b
      ensures StrongHolders(m', b) == StrongHolders(s.handles, b) && WeakHolders(m', b) == WeakHolders(s.handles, b)
    {
      assert m' - {h} == s.handles - {h};
      HolderChange(s.handles, m', h, b);
      HolderMember(s.handles, h, b);
    }
  }

  lemma RefineMake(s: State, t: Tid, dst: Handle, b: BlockId)
    requires Inv(s) && Enabled(s, t, Make(dst, b))
    ensures Happens(Abs(s), Create(b), Abs(Apply(s, t, Make(dst, b))))
  {
    hide StrongHolders, WeakHolders, Doing, Inv, TallyOf, BlockOK;
    var s' := Apply(s, t, Make(dst, b));
    NobodyOn(s, b);
    FreshOwners(s, b);
    forall x | x in s'.blocks
      ensures ObjectOf(s', x) == if x == b then Object(NOBODY, NOBODY, Pending, false) else ObjectOf(s, x)
    {
      assert s'.ops - {t} == s.ops - {t};
      assert s'.handles - {dst} == s.handles - {dst};
      OwnersChange(s, s', t, dst, x);
    }
  }

  lemma FreshOwners(s: State, b: BlockId)
    requires Inv(s) && b !in s.blocks
    ensures StrongHolders(s.handles, b) == {} && WeakHolders(s.handles, b) == {}
    ensures Doing(s.ops, Retained, b) == {} && Doing(s.ops, WeakOwed, b) == {}
  {
    hide BlockOK;
    forall h | h in s.handles ensures s.handles[h] != Counted(b) { assert CellOK(s, h); }
    NobodyOn(s, b);
  }

  /** Exchanging the contents of two handles exchanges their names among the owners of every object. */
  lemma RefineExchange(s: State, h: Handle, k: Handle, c: Cell)
    requires h in s.handles && SameKind(h, k) && (h == k ==> c == s.handles[h])
    requires if k in s.handles then c == s.handles[k] else c == Null
    ensures Happens(Abs(s), Exchange(h, k), Abs(s.(handles := s.handles[h := c][k := s.handles[h]])))
  {
    hide StrongHolders, WeakHolders, Doing;
    var s' := s.(handles := s.handles[h := c][k := s.handles[h]]);
    forall b | b in s.blocks ensures ObjectOf(s', b) == RenamedObject(ObjectOf(s, b), h, k) {
      ExchangeOwners(s.handles, h, k, c, b);
    }
  }

  lemma ExchangeOwners(m: map<Handle, Cell>, h: Handle, k: Handle, c: Cell, b: BlockId)
    requires h in m && SameKind(h, k) && (h == k ==> c == m[h]) && if k in m then c == m[k] else c == Null
    ensures StrongHolders(m[h := c][k := m[h]], b) == Renamed(StrongHolders(m, b), h, k)
    ensures WeakHolders(m[h := c][k := m[h]], b) == Renamed(WeakHolders(m, b), h, k)
  {
    var m' := m[h := c][k := m[h]];
    forall x ensures x in StrongHolders(m', b) <==> x in Renamed(StrongHolders(m, b), h, k) { }
    forall x ensures x in WeakHolders(m', b) <==> x in Renamed(WeakHolders(m, b), h, k) { }
  }

  /** Each step of the machine is exactly one event of the owner-set specification. */
  lemma StepRefines(s: State, t: Tid, a: Action)
    requires Inv(s) && Enabled(s, t, a)
    ensures Happens(Abs(s), EventOf(s, t, a), Abs(Apply(s, t, a)))
  {
    hide StrongHolders, WeakHolders, Doing, Inv, TallyOf, BlockOK, Abs, Continue, ResumeEvent, Happens;
    match a
    case Resume(spurious, throws) => ResumeRefines(s, t, spurious, throws);
    case Make(dst, b) => RefineMake(s, t, dst, b);
    case Move(src, dst) =>
      assert Apply(s, t, a).handles == s.handles[src := Null][dst := s.handles[src]];
      RefineExchange(s, src, dst, Null);
    case Swap(src, dst) => RefineExchange(s, src, dst, s.handles[dst]);
    case Default(dst) => RefineNull(s, dst, s.handles[dst := Null]); SilentHappens(s, Apply(s, t, a));
    case End(src) => RefineNull(s, src, s.handles - {src}); SilentHappens(s, Apply(s, t, a));
    case Copy(src, dst) =>
      if s.handles[src].Null? {
        RefineNull(s, dst, s.handles[dst := Null]); SilentHappens(s, Apply(s, t, a));
      } else {
        RefineBuild(s, t, a);
      }
    case Lock(src, dst) =>
      if s.handles[src].Null? {
        RefineNull(s, dst, s.handles[dst := Null]); SilentHappens(s, Apply(s, t, a));
      } else {
        RefineBuild(s, t, a);
      }
    case Reset(src) => if s.handles[src].Null? { SilentHappens(s, s); } else { RefineReset(s, t, src); }
    case UseCount(src) => if s.handles[src].Null? { SilentHappens(s, s); } else { RefineRead(s, t, a); }
    case Expired(src) => if s.handles[src].Null? { SilentHappens(s, s); } else { RefineRead(s, t, a); }
  }
}
