/** The invariant of the reference counting machine and the facts about counting it rests on. */
module RefCountInvariant {
  import opened Core
  import opened RefCountMachine

  // ----- The invariant

  /** What the handle that `t` constructs contains meanwhile. */
  function DstCell(t: Tid, op: Op): Cell {
    if op.at.CopyDeref? || op.at.CopyLoad? || op.at.CopyCas? || op.at.WeakLoad? || op.at.WeakCas?
    then Uncounted(op.b, t) else Building(t)
  }

  predicate HasCell(m: map<Handle, Cell>, h: Handle, c: Cell) { h in m && m[h] == c }

  /** The source of an operation holds a reference all along, its destination belongs to it alone. */
  predicate HandlesOK(m: map<Handle, Cell>, t: Tid, op: Op) {
    && (op.src.Some? ==> HasCell(m, op.src.value, Counted(op.b)))
    && (op.dst.Some? ==> HasCell(m, op.dst.value, DstCell(t, op)))
  }

  /** The handles an operation works on, by point. */
  predicate KindsOK(op: Op) {
    match op.at
    case CopyDeref | CopyLoad | CopyCas(_) => Reads(op, true) && Writes(op, true)
    case WeakDeref => Reads(op, true) && Writes(op, false)
    case WeakLoad | WeakCas(_) => op.src.Some? && Writes(op, false)
    case LockLoad | LockCas(_) | LockTarget => Reads(op, false) && Writes(op, true)
    case Construct => op.src.None? && Writes(op, true)
    case UseDeref | UseLoad => Reads(op, true) && op.dst.None?
    case ExpiredLoad => Reads(op, false) && op.dst.None?
    case _ => op.src.None? && op.dst.None?
  }

  predicate Reads(op: Op, strong: bool) { op.src.Some? && op.src.value.Strong? == strong }
  predicate Writes(op: Op, strong: bool) { op.dst.Some? && op.dst.value.Strong? == strong }

  /** What an operation knows about its block from the steps it has made. */
  predicate PhaseOK(block: Block, op: Op) {
    match op.at
    case RelExchange => block.life == Alive && block.strong == 0 && block.target == Some(op.b)
    case RelDelete(victim) => block.life == Alive && block.strong == 0 && victim == Some(op.b)
    case BaseDtor => block.life == Dying && block.strong == 0
    case UnwindDtor => block.life == Dying && block.strong == 1
    case Construct => block.life == Constructing
    case LockCas(seen) => seen != 0
    case _ => true
  }

  predicate OpOK(s: State, t: Tid, op: Op) {
    op.b in s.blocks && KindsOK(op) && HandlesOK(s.handles, t, op) && PhaseOK(s.blocks[op.b], op)
  }

  predicate CellOK(s: State, h: Handle) requires h in s.handles {
    match s.handles[h]
    case Null => true
    case Counted(b) => b in s.blocks
    case Uncounted(_, t) => t in s.ops && s.ops[t].dst == Some(h)
    case Building(t) => t in s.ops && s.ops[t].dst == Some(h)
  }

  /** How many references of each kind there are to one block. */
  datatype Tally = Tally(
    handles: nat, retained: nat, initial: nat,
    weak: nat, owed: nat, implicit: nat, freeing: nat)

  function TallyOf(s: State, b: BlockId): Tally {
    Tally(|StrongHolders(s.handles, b)|, |Doing(s.ops, Retained, b)|, |Doing(s.ops, Initial, b)|,
          |WeakHolders(s.handles, b)|, |Doing(s.ops, WeakOwed, b)|, |Doing(s.ops, Implicit, b)|,
          |Doing(s.ops, Freeing, b)|)
  }

  /** The counters of a block against its references, by the life of its target. */
  predicate BlockOK(block: Block, b: BlockId, n: Tally) {
    && block.strong <= SIZE_MAX && block.weak <= SIZE_MAX
    && (n.freeing > 0 ==> block.life == Gone)
    && match block.life
       case Constructing =>
         && n.handles == n.retained == n.implicit == n.weak == n.owed == 0 && n.initial == 1
         && block.strong == 1 && block.weak == 1 && block.target == Some(b)
         && block.deletes == 0 && block.frees == 0
       case Alive =>
         && n.initial == 0
         && block.strong == n.handles + n.retained
         && block.weak == n.weak + n.owed + 1
         && n.implicit == (if block.strong == 0 then 1 else 0)
         && (block.strong > 0 ==> block.target == Some(b))
         && block.deletes == 0 && block.frees == 0
       case Dying =>
         && n.handles == n.retained == 0 && n.implicit == 1
         && block.strong == n.initial <= 1
         && block.weak == n.weak + n.owed + 1
         && (n.initial == 1 ==> block.weak == 1)
         && block.deletes == 1 - n.initial && block.frees == 0
       case Gone =>
         && n.handles == n.retained == n.initial == n.implicit == 0
         && block.weak == n.weak + n.owed
         && block.deletes + block.strong == 1
         && (block.weak > 0 ==> block.strong == 0)
         && block.frees + n.freeing == (if block.weak == 0 then 1 else 0)
  }

  ghost predicate Inv(s: State) {
    && !s.ub
    && (forall h | h in s.handles :: CellOK(s, h))
    && (forall t | t in s.ops :: OpOK(s, t, s.ops[t]))
    && (forall b | b in s.blocks :: BlockOK(s.blocks[b], b, TallyOf(s, b)))
  }

  // ----- Counting

  function One(c: bool): nat { if c then 1 else 0 }

  lemma StrongPut(m: map<Handle, Cell>, h: Handle, c: Cell, b: BlockId)
    ensures StrongHolders(m[h := c], b)
         == if h.Strong? && c == Counted(b) then StrongHolders(m, b) + {h} else StrongHolders(m, b) - {h}
    ensures |StrongHolders(m[h := c], b)| + One(h.Strong? && HasCell(m, h, Counted(b)))
         == |StrongHolders(m, b)| + One(h.Strong? && c == Counted(b))
  {
    var before, after := StrongHolders(m, b), StrongHolders(m[h := c], b);
    assert after == if h.Strong? && c == Counted(b) then before + {h} else before - {h};
    assert h in before <==> h.Strong? && HasCell(m, h, Counted(b));
  }

  lemma WeakPut(m: map<Handle, Cell>, h: Handle, c: Cell, b: BlockId)
    ensures WeakHolders(m[h := c], b)
         == if h.Weak? && c == Counted(b) then WeakHolders(m, b) + {h} else WeakHolders(m, b) - {h}
    ensures |WeakHolders(m[h := c], b)| + One(h.Weak? && HasCell(m, h, Counted(b)))
         == |WeakHolders(m, b)| + One(h.Weak? && c == Counted(b))
  {
    var before, after := WeakHolders(m, b), WeakHolders(m[h := c], b);
    assert after == if h.Weak? && c == Counted(b) then before + {h} else before - {h};
    assert h in before <==> h.Weak? && HasCell(m, h, Counted(b));
  }

  lemma HandleDropped(m: map<Handle, Cell>, h: Handle, b: BlockId)
    requires h in m && !m[h].Counted?
    ensures StrongHolders(m - {h}, b) == StrongHolders(m, b)
    ensures WeakHolders(m - {h}, b) == WeakHolders(m, b)
  {
  }

  /** The thread `t` is in role `r` on `b`. */
  predicate Does(ops: map<Tid, Op>, t: Tid, r: Role, b: BlockId) { t in ops && Holds(ops[t], r, b) }

  lemma DoingDone(ops: map<Tid, Op>, t: Tid, r: Role, b: BlockId)
    ensures Doing(ops - {t}, r, b) == Doing(ops, r, b) - {t}
    ensures |Doing(ops - {t}, r, b)| + One(Does(ops, t, r, b)) == |Doing(ops, r, b)|
  {
    SelectDropped(ops, t, HoldsFn(r, b));
  }

  lemma SelectDropped<K, V>(m: map<K, V>, k: K, p: V -> bool)
    ensures Select(m - {k}, p) == Select(m, p) - {k}
    ensures |Select(m - {k}, p)| + One(k in m && p(m[k])) == |Select(m, p)|
  {
    var before, after := Select(m, p), Select(m - {k}, p);
    assert after == before - {k};
    assert k in before <==> k in m && p(m[k]);
  }
}
