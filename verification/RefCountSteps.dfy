/** Every step of the reference counting machine keeps the invariant. */
module RefCountSteps {
  import opened Core
  import opened RefCountMachine
  import opened RefCountInvariant

  /** The cell is under construction by `t`. */
  predicate OwnedBy(c: Cell, t: Tid) { (c.Uncounted? || c.Building?) && c.owner == t }

  /** A change of one operation and one handle moves the tallies by what they hold. */
  lemma Tallies(s: State, s': State, t: Tid, h: Handle, b: BlockId)
    requires s'.ops - {t} == s.ops - {t}
    requires s'.handles - {h} == s.handles - {h}
    ensures var n, n' := TallyOf(s, b), TallyOf(s', b);
      && n'.handles + One(h.Strong? && HasCell(s.handles, h, Counted(b)))
      == n.handles + One(h.Strong? && HasCell(s'.handles, h, Counted(b)))
      && n'.weak + One(h.Weak? && HasCell(s.handles, h, Counted(b)))
      == n.weak + One(h.Weak? && HasCell(s'.handles, h, Counted(b)))
      && n'.retained + One(Does(s.ops, t, Retained, b)) == n.retained + One(Does(s'.ops, t, Retained, b))
      && n'.initial + One(Does(s.ops, t, Initial, b)) == n.initial + One(Does(s'.ops, t, Initial, b))
      && n'.owed + One(Does(s.ops, t, WeakOwed, b)) == n.owed + One(Does(s'.ops, t, WeakOwed, b))
      && n'.implicit + One(Does(s.ops, t, Implicit, b)) == n.implicit + One(Does(s'.ops, t, Implicit, b))
      && n'.freeing + One(Does(s.ops, t, Freeing, b)) == n.freeing + One(Does(s'.ops, t, Freeing, b))
  {
    HandleChange(s.handles, s'.handles, h, b);
    OpChange(s.ops, s'.ops, t, Retained, b);
    OpChange(s.ops, s'.ops, t, Initial, b);
    OpChange(s.ops, s'.ops, t, WeakOwed, b);
    OpChange(s.ops, s'.ops, t, Implicit, b);
    OpChange(s.ops, s'.ops, t, Freeing, b);
  }

  lemma OpChange(ops: map<Tid, Op>, ops': map<Tid, Op>, t: Tid, r: Role, b: BlockId)
    requires ops' - {t} == ops - {t}
    ensures |Doing(ops', r, b)| + One(Does(ops, t, r, b)) == |Doing(ops, r, b)| + One(Does(ops', t, r, b))
  {
    DoingDone(ops, t, r, b);
    DoingDone(ops', t, r, b);
  }

  lemma HandleChange(m: map<Handle, Cell>, m': map<Handle, Cell>, h: Handle, b: BlockId)
    requires m' - {h} == m - {h}
    ensures |StrongHolders(m', b)| + One(h.Strong? && HasCell(m, h, Counted(b)))
         == |StrongHolders(m, b)| + One(h.Strong? && HasCell(m', h, Counted(b)))
    ensures |WeakHolders(m', b)| + One(h.Weak? && HasCell(m, h, Counted(b)))
         == |WeakHolders(m, b)| + One(h.Weak? && HasCell(m', h, Counted(b)))
  {
    assert m[h := Null] == (m - {h})[h := Null] == m'[h := Null];
    StrongPut(m, h, Null, b);
    StrongPut(m', h, Null, b);
    WeakPut(m, h, Null, b);
    WeakPut(m', h, Null, b);
  }

  /** What an operation in progress holds is counted. */
  lemma Witness(s: State, t: Tid)
    requires Inv(s) && t in s.ops
    ensures var op := s.ops[t]; var n := TallyOf(s, op.b);
      && (op.src.Some? && op.src.value.Strong? ==> n.handles >= 1)
      && (op.src.Some? && op.src.value.Weak? ==> n.weak >= 1)
      && (Holds(op, Retained, op.b) ==> n.retained >= 1)
      && (Holds(op, Initial, op.b) ==> n.initial >= 1)
      && (Holds(op, WeakOwed, op.b) ==> n.owed >= 1)
      && (Holds(op, Implicit, op.b) ==> n.implicit >= 1)
      && (Holds(op, Freeing, op.b) ==> n.freeing >= 1)
  {
    var op := s.ops[t];
    DoingDone(s.ops, t, Retained, op.b);
    DoingDone(s.ops, t, Initial, op.b);
    DoingDone(s.ops, t, WeakOwed, op.b);
    DoingDone(s.ops, t, Implicit, op.b);
    DoingDone(s.ops, t, Freeing, op.b);
    if op.src.Some? {
      StrongPut(s.handles, op.src.value, Null, op.b);
      WeakPut(s.handles, op.src.value, Null, op.b);
    }
  }

  /** The two states differ only in the operation of `t`, in handle `h` and in block `b`. */
  ghost predicate LocalChange(s: State, s': State, t: Tid, h: Handle, b: BlockId) {
    && s'.ops - {t} == s.ops - {t}
    && s'.handles - {h} == s.handles - {h}
    && b in s'.blocks && s'.blocks == s.blocks[b := s'.blocks[b]]
    && (t in s.ops ==> s.ops[t].b == b)
    && (t in s'.ops ==> s'.ops[t].b == b)
    && (s'.handles != s.handles ==>
          && (h in s.handles ==> s.handles[h] == Counted(b) || !s.handles[h].Counted?)
          && (h in s'.handles ==> s'.handles[h] == Counted(b) || !s'.handles[h].Counted?)
          && (h in s.handles ==> OwnedBy(s.handles[h], t) || Free(s, h)))
  }

  /**
   A step that changes one operation, one handle and one block keeps the invariant if the block and
   the operation fit their new state and no other operation loses what it knows.
   */
  lemma Assemble(s: State, s': State, t: Tid, h: Handle, b: BlockId)
    requires Inv(s) && !s'.ub && LocalChange(s, s', t, h, b)
    requires t in s'.ops ==> OpOK(s', t, s'.ops[t])
    requires BlockOK(s'.blocks[b], b, TallyOf(s', b))
    requires forall k | k in s'.handles && OwnedBy(s'.handles[k], t) :: t in s'.ops && s'.ops[t].dst == Some(k)
    requires s'.handles != s.handles && h in s'.handles ==> CellOK(s', h)
    requires forall u | u in s.ops && u != t && s.ops[u].b == b :: PhaseOK(s'.blocks[b], s.ops[u])
    ensures Inv(s')
  {
    forall k | k in s'.handles ensures CellOK(s', k) {
      if k != h || s'.handles == s.handles { OtherCell(s, s', t, h, b, k); }
    }
    forall u | u in s'.ops ensures OpOK(s', u, s'.ops[u]) {
      if u != t { OtherOp(s, s', t, h, b, u); }
    }
    forall x | x in s'.blocks ensures BlockOK(s'.blocks[x], x, TallyOf(s', x)) {
      if x != b { OtherTally(s, s', t, h, b, x); }
    }
  }

  lemma OtherCell(s: State, s': State, t: Tid, h: Handle, b: BlockId, k: Handle)
    requires Inv(s) && LocalChange(s, s', t, h, b) && k in s'.handles
    requires k != h || s'.handles == s.handles
    requires OwnedBy(s'.handles[k], t) ==> t in s'.ops && s'.ops[t].dst == Some(k)
    ensures CellOK(s', k)
  {
    if k != h { Elsewhere(s.handles, s'.handles, h, k); }
    assert CellOK(s, k);
    var c := s.handles[k];
    if (c.Uncounted? || c.Building?) && c.owner != t { Elsewhere(s.ops, s'.ops, t, c.owner); }
  }

  lemma OtherOp(s: State, s': State, t: Tid, h: Handle, b: BlockId, u: Tid)
    requires Inv(s) && LocalChange(s, s', t, h, b) && u in s'.ops && u != t
    requires forall v | v in s.ops && v != t && s.ops[v].b == b :: PhaseOK(s'.blocks[b], s.ops[v])
    ensures OpOK(s', u, s'.ops[u])
  {
    Elsewhere(s.ops, s'.ops, t, u);
    var op := s.ops[u];
    assert s'.ops[u] == op;
    assert OpOK(s, u, op);
    OtherHandles(s, s', t, h, u);
  }

  lemma OtherTally(s: State, s': State, t: Tid, h: Handle, b: BlockId, x: BlockId)
    requires LocalChange(s, s', t, h, b) && x != b
    ensures TallyOf(s', x) == TallyOf(s, x)
  {
    Tallies(s, s', t, h, x);
  }

  lemma Elsewhere<K, V>(m: map<K, V>, m': map<K, V>, k: K, x: K)
    requires m' - {k} == m - {k} && x != k
    ensures x in m <==> x in m'
    ensures x in m ==> m'[x] == m[x]
  {
    assert x in m <==> x in m - {k};
    assert x in m' <==> x in m' - {k};
  }

  lemma OtherHandles(s: State, s': State, t: Tid, h: Handle, u: Tid)
    requires Inv(s) && u in s.ops && u != t
    requires s'.handles - {h} == s.handles - {h}
    requires s'.handles != s.handles && h in s.handles ==> OwnedBy(s.handles[h], t) || Free(s, h)
    ensures HandlesOK(s'.handles, u, s.ops[u])
  {
    hide TallyOf, BlockOK, PhaseOK, KindsOK;
    assert OpOK(s, u, s.ops[u]);
    var src, dst := s.ops[u].src, s.ops[u].dst;
    if s'.handles != s.handles {
      if src.Some? { assert src != Some(h); Elsewhere(s.handles, s'.handles, h, src.value); }
      if dst.Some? { assert dst != Some(h); Elsewhere(s.handles, s'.handles, h, dst.value); }
    }
  }

  /** The block of an operation in progress is not freed; a strong reference keeps the target alive. */
  lemma Protected(s: State, t: Tid)
    requires Inv(s) && t in s.ops
    ensures !s.ub
    ensures var op := s.ops[t];
      && OpOK(s, t, op) && BlockOK(s.blocks[op.b], op.b, TallyOf(s, op.b))
      && BlockUsable(s, op.b)
      && ((op.src.Some? && op.src.value.Strong?) || Holds(op, Retained, op.b) ==>
            s.blocks[op.b].life == Alive && s.blocks[op.b].strong > 0)
  {
    hide TallyOf, Doing, StrongHolders, WeakHolders;
    Witness(s, t);
    var b := s.ops[t].b;
    assert OpOK(s, t, s.ops[t]) && BlockOK(s.blocks[b], b, TallyOf(s, b));
  }

  /** While a block has strong references and a live target, no operation depends on the exact count. */
  lemma NobodyFinishing(s: State, b: BlockId, block': Block)
    requires Inv(s) && b in s.blocks && s.blocks[b].life == Alive && s.blocks[b].strong > 0
    ensures forall u | u in s.ops && s.ops[u].b == b :: PhaseOK(block', s.ops[u])
  {
    forall u | u in s.ops && s.ops[u].b == b ensures PhaseOK(block', s.ops[u]) {
      assert OpOK(s, u, s.ops[u]);
    }
  }

  /** A step that only moves `t` on to a point where it holds and builds the same. */
  lemma KeepAdvance(s: State, s': State, t: Tid, at: Point)
    requires Inv(s) && t in s.ops && s' == Advance(s, t, at)
    requires forall r :: InRole(at, r) == InRole(s.ops[t].at, r)
    requires var op := s.ops[t].(at := at);
      KindsOK(op) && DstCell(t, op) == DstCell(t, s.ops[t]) && PhaseOK(s.blocks[op.b], op)
    ensures Inv(s')
  {
    hide TallyOf, BlockOK, Doing, StrongHolders, WeakHolders;
    assert OpOK(s, t, s.ops[t]);
    KeepQuiet(s, s', t);
  }

  /** A step that only ends an operation which holds nothing and builds nothing. */
  lemma KeepLeave(s: State, s': State, t: Tid)
    requires Inv(s) && t in s.ops && s' == Finish(s, t)
    requires s.ops[t].dst == None && forall r :: !InRole(s.ops[t].at, r)
    ensures Inv(s')
  {
    hide TallyOf, BlockOK, Doing, StrongHolders, WeakHolders;
    assert OpOK(s, t, s.ops[t]);
    KeepQuiet(s, s', t);
  }

  lemma KeepQuiet(s: State, s': State, t: Tid)
    requires Inv(s) && t in s.ops && !s'.ub && s.ops[t].b in s.blocks
    requires s'.blocks == s.blocks && s'.handles == s.handles && s'.ops - {t} == s.ops - {t}
    requires forall r :: Does(s'.ops, t, r, s.ops[t].b) == Does(s.ops, t, r, s.ops[t].b)
    requires t in s'.ops ==> s'.ops[t].b == s.ops[t].b && OpOK(s', t, s'.ops[t])
    requires s.ops[t].dst == if t in s'.ops then s'.ops[t].dst else None
    ensures Inv(s')
  {
    hide TallyOf, BlockOK, Doing, StrongHolders, WeakHolders;
    var b := s.ops[t].b;
    Tallies(s, s', t, Strong(0), b);
    assert TallyOf(s', b) == TallyOf(s, b);
    forall u | u in s.ops && u != t && s.ops[u].b == b ensures PhaseOK(s'.blocks[b], s.ops[u]) {
      assert OpOK(s, u, s.ops[u]);
    }
    forall k | k in s'.handles && OwnedBy(s'.handles[k], t) ensures t in s'.ops && s'.ops[t].dst == Some(k) {
      assert CellOK(s, k);
    }
    Assemble(s, s', t, Strong(0), b);
  }

  // ----- What other operations can rely on

  /** A thread whose role on a block only one thread can have. */
  lemma Sole(s: State, t: Tid, r: Role, b: BlockId)
    requires Does(s.ops, t, r, b) && |Doing(s.ops, r, b)| <= 1
    ensures forall u | u in s.ops && u != t && s.ops[u].b == b :: !InRole(s.ops[u].at, r)
  {
    DoingDone(s.ops, t, r, b);
    assert Doing(s.ops - {t}, r, b) == {};
    forall u | u in s.ops && u != t && s.ops[u].b == b ensures !InRole(s.ops[u].at, r) {
      assert u !in Doing(s.ops - {t}, r, b);
    }
  }

  /** Only the weak count changes. */
  lemma OthersKeepWeak(s: State, t: Tid, b: BlockId, block': Block)
    requires Inv(s) && b in s.blocks && block' == s.blocks[b].(weak := block'.weak, frees := block'.frees)
    ensures forall u | u in s.ops && u != t && s.ops[u].b == b :: PhaseOK(block', s.ops[u])
  {
    forall u | u in s.ops && u != t && s.ops[u].b == b ensures PhaseOK(block', s.ops[u]) {
      assert OpOK(s, u, s.ops[u]);
    }
  }

  /** The thread that finishes a target, or constructs it, is the only one that knows its phase. */
  lemma OthersUnaware(s: State, t: Tid, block': Block)
    requires Inv(s) && t in s.ops && (InRole(s.ops[t].at, Implicit) || InRole(s.ops[t].at, Initial))
    ensures forall u | u in s.ops && u != t && s.ops[u].b == s.ops[t].b :: PhaseOK(block', s.ops[u])
  {
    hide TallyOf, Doing, StrongHolders, WeakHolders;
    var b, op := s.ops[t].b, s.ops[t];
    Protected(s, t);
    Witness(s, t);
    forall u | u in s.ops && u != t && s.ops[u].b == b ensures PhaseOK(block', s.ops[u]) {
      assert OpOK(s, u, s.ops[u]);
      if InRole(op.at, Implicit) { SoleInTally(s, t, Implicit, b); } else { SoleInTally(s, t, Initial, b); }
    }
  }

  lemma SoleInTally(s: State, t: Tid, r: Role, b: BlockId)
    requires Does(s.ops, t, r, b)
    requires (r == Implicit && TallyOf(s, b).implicit <= 1) || (r == Initial && TallyOf(s, b).initial <= 1)
    ensures forall u | u in s.ops && u != t && s.ops[u].b == b :: !InRole(s.ops[u].at, r)
  {
    Sole(s, t, r, b);
  }

  // ----- The steps that write a control block

  /** The cells that `t` owns are those of its operation. */
  lemma OwnCells(s: State, t: Tid)
    requires Inv(s)
    ensures forall k | k in s.handles && OwnedBy(s.handles[k], t) :: t in s.ops && s.ops[t].dst == Some(k)
  {
    forall k | k in s.handles && OwnedBy(s.handles[k], t) ensures t in s.ops && s.ops[t].dst == Some(k) {
      assert CellOK(s, k);
    }
  }

  /** A step without a destination handle that updates the block and moves on or ends. */
  lemma KeepUpdate(s: State, s': State, t: Tid)
    requires Inv(s) && t in s.ops && !s'.ub && s.ops[t].dst == None
    requires s'.handles == s.handles && s'.ops - {t} == s.ops - {t}
    requires var b := s.ops[t].b;
      && b in s'.blocks && s'.blocks == s.blocks[b := s'.blocks[b]]
      && (t in s'.ops ==> s'.ops[t].b == b && s'.ops[t].dst == None && OpOK(s', t, s'.ops[t]))
      && BlockOK(s'.blocks[b], b, TallyOf(s', b))
      && forall u | u in s.ops && u != t && s.ops[u].b == b :: PhaseOK(s'.blocks[b], s.ops[u])
    ensures Inv(s')
  {
    hide TallyOf, BlockOK, Doing, StrongHolders, WeakHolders, PhaseOK;
    OwnCells(s, t);
    Assemble(s, s', t, Strong(0), s.ops[t].b);
  }

  /** A step that ends an operation by publishing the handle it constructed. */
  lemma KeepPublish(s: State, s': State, t: Tid, c: Cell)
    requires Inv(s) && t in s.ops && s.ops[t].dst.Some? && !s'.ub && s'.ops == s.ops - {t}
    requires c == Null || c == Counted(s.ops[t].b)
    requires s'.handles == s.handles[s.ops[t].dst.value := c]
    requires var b := s.ops[t].b;
      && b in s'.blocks && s'.blocks == s.blocks[b := s'.blocks[b]]
      && BlockOK(s'.blocks[b], b, TallyOf(s', b))
      && forall u | u in s.ops && u != t && s.ops[u].b == b :: PhaseOK(s'.blocks[b], s.ops[u])
    ensures Inv(s')
  {
    hide TallyOf, BlockOK, Doing, StrongHolders, WeakHolders, PhaseOK;
    OwnCells(s, t);
    assert OpOK(s, t, s.ops[t]);
    Assemble(s, s', t, s.ops[t].dst.value, s.ops[t].b);
  }

  lemma KeepCopyCas(s: State, t: Tid)
    requires Inv(s) && t in s.ops && s.ops[t].at.CopyCas? && s.ops[t].at.seen != SIZE_MAX
    requires s.ops[t].at.seen == s.blocks[s.ops[t].b].strong
    ensures Inv(Continue(s, t, false, false))
  {
    hide TallyOf, Doing, StrongHolders, WeakHolders, Inv;
    Protected(s, t);
    var b, s' := s.ops[t].b, Continue(s, t, false, false);
    NobodyFinishing(s, b, s'.blocks[b]);
    Tallies(s, s', t, s.ops[t].dst.value, b);
    KeepPublish(s, s', t, Counted(b));
  }

  lemma KeepRelSub(s: State, t: Tid)
    requires Inv(s) && t in s.ops && s.ops[t].at.RelSub?
    ensures Inv(Continue(s, t, false, false))
  {
    hide TallyOf, Doing, StrongHolders, WeakHolders, Inv;
    Protected(s, t);
    var b, s' := s.ops[t].b, Continue(s, t, false, false);
    NobodyFinishing(s, b, s'.blocks[b]);
    Tallies(s, s', t, Strong(0), b);
    KeepUpdate(s, s', t);
  }

  lemma KeepRelExchange(s: State, t: Tid)
    requires Inv(s) && t in s.ops && s.ops[t].at.RelExchange?
    ensures Inv(Continue(s, t, false, false))
  {
    hide TallyOf, Doing, StrongHolders, WeakHolders, Inv;
    Protected(s, t);
    var b, s' := s.ops[t].b, Continue(s, t, false, false);
    OthersUnaware(s, t, s'.blocks[b]);
    Tallies(s, s', t, Strong(0), b);
    KeepUpdate(s, s', t);
  }

  lemma KeepRelDelete(s: State, t: Tid)
    requires Inv(s) && t in s.ops && s.ops[t].at.RelDelete?
    ensures Inv(Continue(s, t, false, false))
  {
    hide TallyOf, Doing, StrongHolders, WeakHolders, Inv;
    Protected(s, t);
    var b, s' := s.ops[t].b, Continue(s, t, false, false);
    OthersUnaware(s, t, s'.blocks[b]);
    Tallies(s, s', t, Strong(0), b);
    KeepUpdate(s, s', t);
  }

  lemma KeepDropImplicit(s: State, t: Tid)
    requires Inv(s) && t in s.ops && (s.ops[t].at.BaseDtor? || s.ops[t].at.UnwindDtor?)
    ensures Inv(DropImplicit(s, t, s.ops[t].b))
  {
    if s.ops[t].at.BaseDtor? { KeepBaseDtor(s, t); } else { KeepUnwindDtor(s, t); }
  }

  lemma KeepBaseDtor(s: State, t: Tid)
    requires Inv(s) && t in s.ops && s.ops[t].at.BaseDtor?
    ensures Inv(DropImplicit(s, t, s.ops[t].b))
  {
    hide TallyOf, Doing, StrongHolders, WeakHolders, Inv;
    Protected(s, t);
    var b, s' := s.ops[t].b, DropImplicit(s, t, s.ops[t].b);
    OthersUnaware(s, t, s'.blocks[b]);
    Tallies(s, s', t, Strong(0), b);
    KeepUpdate(s, s', t);
  }

  lemma KeepUnwindDtor(s: State, t: Tid)
    requires Inv(s) && t in s.ops && s.ops[t].at.UnwindDtor?
    ensures Inv(DropImplicit(s, t, s.ops[t].b))
  {
    hide TallyOf, Doing, StrongHolders, WeakHolders, Inv;
    Protected(s, t);
    var b, s' := s.ops[t].b, DropImplicit(s, t, s.ops[t].b);
    OthersUnaware(s, t, s'.blocks[b]);
    Tallies(s, s', t, Strong(0), b);
    KeepUpdate(s, s', t);
  }

  lemma KeepWeakSub(s: State, t: Tid)
    requires Inv(s) && t in s.ops && s.ops[t].at.WeakSub?
    ensures Inv(Continue(s, t, false, false))
  {
    hide TallyOf, Doing, StrongHolders, WeakHolders, Inv;
    Protected(s, t);
    Witness(s, t);
    var b, s' := s.ops[t].b, Continue(s, t, false, false);
    OthersKeepWeak(s, t, b, s'.blocks[b]);
    Tallies(s, s', t, Strong(0), b);
    KeepUpdate(s, s', t);
  }

  lemma KeepFreeBlock(s: State, t: Tid)
    requires Inv(s) && t in s.ops && s.ops[t].at.FreeBlock?
    ensures Inv(Continue(s, t, false, false))
  {
    hide TallyOf, Doing, StrongHolders, WeakHolders, Inv;
    Protected(s, t);
    Witness(s, t);
    var b, s' := s.ops[t].b, Continue(s, t, false, false);
    OthersKeepWeak(s, t, b, s'.blocks[b]);
    Tallies(s, s', t, Strong(0), b);
    KeepUpdate(s, s', t);
  }

  lemma KeepWeakCas(s: State, t: Tid)
    requires Inv(s) && t in s.ops && s.ops[t].at.WeakCas? && s.ops[t].at.seen != SIZE_MAX
    requires s.ops[t].at.seen == s.blocks[s.ops[t].b].weak
    ensures Inv(Continue(s, t, false, false))
  {
    hide TallyOf, Doing, StrongHolders, WeakHolders, Inv;
    Protected(s, t);
    Witness(s, t);
    var b, s' := s.ops[t].b, Continue(s, t, false, false);
    OthersKeepWeak(s, t, b, s'.blocks[b]);
    Tallies(s, s', t, s.ops[t].dst.value, b);
    KeepPublish(s, s', t, Counted(b));
  }

  lemma KeepWeakDeref(s: State, t: Tid)
    requires Inv(s) && t in s.ops && s.ops[t].at.WeakDeref?
    ensures Inv(Continue(s, t, false, false))
  {
    hide TallyOf, Doing, StrongHolders, WeakHolders, Inv;
    Protected(s, t);
    var b, h, s' := s.ops[t].b, s.ops[t].dst.value, Continue(s, t, false, false);
    OwnCells(s, t);
    Tallies(s, s', t, h, b);
    OthersKeepWeak(s, t, b, s'.blocks[b]);
    assert TallyOf(s', b) == TallyOf(s, b);
    Assemble(s, s', t, h, b);
  }

  /** `lock` succeeds in adding a reference. Only here the count is not guarded against overflow. */
  lemma KeepLockCas(s: State, t: Tid)
    requires Inv(s) && t in s.ops && s.ops[t].at.LockCas?
    requires s.ops[t].at.seen == s.blocks[s.ops[t].b].strong < SIZE_MAX
    ensures Inv(Continue(s, t, false, false))
  {
    hide TallyOf, Doing, StrongHolders, WeakHolders, Inv;
    Protected(s, t);
    Witness(s, t);
    var b, s' := s.ops[t].b, Continue(s, t, false, false);
    LockAlive(s, t);
    NobodyFinishing(s, b, s'.blocks[b]);
    Tallies(s, s', t, Strong(0), b);
    assert s'.ops - {t} == s.ops - {t};
    OwnCells(s, t);
    Assemble(s, s', t, Strong(0), b);
  }

  /** A positive count seen through a weak handle means that the target is alive. */
  lemma LockAlive(s: State, t: Tid)
    requires Inv(s) && t in s.ops && s.ops[t].src.Some? && s.ops[t].src.value.Weak?
    ensures s.ops[t].b in s.blocks && (s.blocks[s.ops[t].b].strong > 0 ==> s.blocks[s.ops[t].b].life == Alive)
  {
    hide TallyOf, Doing, StrongHolders, WeakHolders, Inv;
    Protected(s, t);
    Witness(s, t);
  }

  lemma KeepLockFailed(s: State, t: Tid)
    requires Inv(s) && t in s.ops && (s.ops[t].at.LockLoad? || s.ops[t].at.LockCas?)
    ensures Inv(Publish(s, t, Null))
  {
    hide TallyOf, Doing, StrongHolders, WeakHolders, Inv;
    Protected(s, t);
    var b, s' := s.ops[t].b, Publish(s, t, Null);
    OthersKeepWeak(s, t, b, s'.blocks[b]);
    Tallies(s, s', t, s.ops[t].dst.value, b);
    assert TallyOf(s', b) == TallyOf(s, b);
    KeepPublish(s, s', t, Null);
  }

  lemma KeepLockTarget(s: State, t: Tid)
    requires Inv(s) && t in s.ops && s.ops[t].at.LockTarget?
    ensures Inv(Continue(s, t, false, false))
  {
    hide TallyOf, Doing, StrongHolders, WeakHolders, Inv;
    Protected(s, t);
    var b, s' := s.ops[t].b, Continue(s, t, false, false);
    OthersKeepWeak(s, t, b, s'.blocks[b]);
    Tallies(s, s', t, s.ops[t].dst.value, b);
    KeepPublish(s, s', t, Counted(b));
  }

  lemma KeepConstruct(s: State, t: Tid)
    requires Inv(s) && t in s.ops && s.ops[t].at.Construct?
    ensures Inv(Continue(s, t, false, false))
  {
    hide TallyOf, Doing, StrongHolders, WeakHolders, Inv;
    Protected(s, t);
    var b, s' := s.ops[t].b, Continue(s, t, false, false);
    OthersUnaware(s, t, s'.blocks[b]);
    Tallies(s, s', t, s.ops[t].dst.value, b);
    KeepPublish(s, s', t, Counted(b));
  }

  lemma KeepThrow(s: State, t: Tid)
    requires Inv(s) && t in s.ops && s.ops[t].at.Construct?
    ensures Inv(Continue(s, t, false, true))
  {
    hide TallyOf, Doing, StrongHolders, WeakHolders, Inv;
    Protected(s, t);
    var b, h, s' := s.ops[t].b, s.ops[t].dst.value, Continue(s, t, false, true);
    OthersUnaware(s, t, s'.blocks[b]);
    OwnCells(s, t);
    Tallies(s, s', t, h, b);
    Assemble(s, s', t, h, b);
  }

  /** The steps that only read: the operation moves on, or ends. */
  lemma KeepDeref(s: State, t: Tid, spurious: bool, throws: bool)
    requires Inv(s) && t in s.ops && (s.ops[t].at.CopyDeref? || s.ops[t].at.RelDeref? || s.ops[t].at.UseDeref?)
    ensures Inv(Continue(s, t, spurious, throws))
  {
    hide TallyOf, BlockOK, Doing, StrongHolders, WeakHolders, Inv;
    Protected(s, t);
    var s' := Continue(s, t, spurious, throws);
    match s.ops[t].at
    case CopyDeref => KeepAdvance(s, s', t, CopyLoad);
    case RelDeref => KeepAdvance(s, s', t, RelSub);
    case UseDeref => KeepAdvance(s, s', t, UseLoad);
  }

  lemma KeepLoad(s: State, t: Tid, spurious: bool, throws: bool)
    requires Inv(s) && t in s.ops
    requires var at := s.ops[t].at; at.CopyLoad? || at.WeakLoad? || at.UseLoad? || at.ExpiredLoad?
    ensures Inv(Continue(s, t, spurious, throws))
  {
    hide TallyOf, BlockOK, Doing, StrongHolders, WeakHolders, Inv;
    Protected(s, t);
    var s', block := Continue(s, t, spurious, throws), s.blocks[s.ops[t].b];
    match s.ops[t].at
    case CopyLoad => KeepAdvance(s, s', t, CopyCas(block.strong));
    case WeakLoad => KeepAdvance(s, s', t, WeakCas(block.weak));
    case UseLoad => KeepLeave(s, s', t);
    case ExpiredLoad => KeepLeave(s, s', t);
  }

  lemma KeepCas(s: State, t: Tid, spurious: bool, throws: bool)
    requires Inv(s) && t in s.ops && (s.ops[t].at.CopyCas? || s.ops[t].at.WeakCas?)
    ensures Inv(Continue(s, t, spurious, throws))
  {
    hide TallyOf, BlockOK, Doing, StrongHolders, WeakHolders, Inv;
    Protected(s, t);
    var s', at, block := Continue(s, t, spurious, throws), s.ops[t].at, s.blocks[s.ops[t].b];
    if at.seen == SIZE_MAX {
      KeepTerminated(s);
    } else if at.CopyCas? {
      if block.strong == at.seen && !spurious {
        KeepCopyCas(s, t);
      } else {
        KeepAdvance(s, s', t, CopyCas(block.strong));
      }
    } else {
      if block.weak == at.seen && !spurious {
        KeepWeakCas(s, t);
      } else {
        KeepAdvance(s, s', t, WeakCas(block.weak));
      }
    }
  }

  /** Every step inside an operation keeps the invariant. */
  lemma KeepResume(s: State, t: Tid, spurious: bool, throws: bool)
    requires Inv(s) && t in s.ops && (s.ops[t].at.LockCas? ==> Bounded(Continue(s, t, spurious, throws)))
    ensures Inv(Continue(s, t, spurious, throws))
  {
    hide TallyOf, BlockOK, Doing, StrongHolders, WeakHolders, Inv, Bounded;
    Protected(s, t);
    match s.ops[t].at
    case CopyCas(_) => KeepCas(s, t, spurious, throws);
    case WeakCas(_) => KeepCas(s, t, spurious, throws);
    case RelSub => KeepRelSub(s, t);
    case RelExchange => KeepRelExchange(s, t);
    case RelDelete(_) => KeepRelDelete(s, t);
    case BaseDtor => KeepDropImplicit(s, t);
    case WeakSub => KeepWeakSub(s, t);
    case FreeBlock => KeepFreeBlock(s, t);
    case WeakDeref => KeepWeakDeref(s, t);
    case LockLoad => KeepTryLock(s, t);
    case LockCas(seen) =>
      if s.blocks[s.ops[t].b].strong == seen && !spurious {
        LockFits(s, t, throws);
        KeepLockCas(s, t);
      } else {
        KeepTryLock(s, t);
      }
    case LockTarget => KeepLockTarget(s, t);
    case Construct => if throws { KeepThrow(s, t); } else { KeepConstruct(s, t); }
    case UnwindDtor => KeepDropImplicit(s, t);
    case CopyDeref => KeepDeref(s, t, spurious, throws);
    case RelDeref => KeepDeref(s, t, spurious, throws);
    case UseDeref => KeepDeref(s, t, spurious, throws);
    case _ => KeepLoad(s, t, spurious, throws);
  }

  lemma KeepTerminated(s: State)
    requires Inv(s)
    ensures Inv(s.(terminated := true))
  {
    hide BlockOK, Doing, StrongHolders, WeakHolders;
    var s' := s.(terminated := true);
    forall t | t in s'.ops ensures OpOK(s', t, s'.ops[t]) { assert OpOK(s, t, s.ops[t]); }
    forall h | h in s'.handles ensures CellOK(s', h) { assert CellOK(s, h); }
    forall b | b in s'.blocks ensures BlockOK(s'.blocks[b], b, TallyOf(s', b)) {
      assert BlockOK(s.blocks[b], b, TallyOf(s, b));
    }
  }

  lemma KeepTryLock(s: State, t: Tid)
    requires Inv(s) && t in s.ops && (s.ops[t].at.LockLoad? || s.ops[t].at.LockCas?)
    ensures s.ops[t].b in s.blocks && Inv(TryLock(s, t, s.blocks[s.ops[t].b].strong))
  {
    hide TallyOf, BlockOK, Doing, StrongHolders, WeakHolders, Inv;
    Protected(s, t);
    var seen := s.blocks[s.ops[t].b].strong;
    if seen == 0 { KeepLockFailed(s, t); } else { KeepAdvance(s, Advance(s, t, LockCas(seen)), t, LockCas(seen)); }
  }

  /** If the references still fit after `lock` has added one, the count did not wrap around. */
  lemma LockFits(s: State, t: Tid, throws: bool)
    requires Inv(s) && t in s.ops && s.ops[t].at.LockCas? && Bounded(Continue(s, t, false, throws))
    requires s.ops[t].b in s.blocks && s.ops[t].at.seen == s.blocks[s.ops[t].b].strong
    ensures s.blocks[s.ops[t].b].strong < SIZE_MAX
  {
    hide TallyOf, Doing, StrongHolders, WeakHolders, Inv;
    Protected(s, t);
    var b, s' := s.ops[t].b, Continue(s, t, false, throws);
    LockAlive(s, t);
    Tallies(s, s', t, Strong(0), b);
    TallyStrong(s', b);
  }

  lemma TallyStrong(s: State, b: BlockId)
    ensures TallyOf(s, b).handles + TallyOf(s, b).retained
         == |StrongHolders(s.handles, b)| + |Doing(s.ops, Retained, b)|
  {
  }

  // ----- The steps that start an operation

  /** Handles that nobody uses may change freely as long as every block keeps its number of holders. */
  lemma KeepHandles(s: State, m': map<Handle, Cell>)
    requires Inv(s)
    requires forall h | h in s.handles && !Free(s, h) :: HasCell(m', h, s.handles[h])
    requires forall h | h in m' ::
               HasCell(s.handles, h, m'[h]) || m'[h] == Null || (m'[h].Counted? && m'[h].b in s.blocks)
    requires forall b :: |StrongHolders(m', b)| == |StrongHolders(s.handles, b)|
                      && |WeakHolders(m', b)| == |WeakHolders(s.handles, b)|
    ensures Inv(s.(handles := m'))
  {
    hide Doing, StrongHolders, WeakHolders, BlockOK;
    var s' := s.(handles := m');
    forall h | h in s'.handles ensures CellOK(s', h) {
      if HasCell(s.handles, h, m'[h]) { assert CellOK(s, h); }
    }
    forall t | t in s'.ops ensures OpOK(s', t, s'.ops[t]) {
      assert OpOK(s, t, s.ops[t]);
    }
    forall b | b in s'.blocks ensures BlockOK(s'.blocks[b], b, TallyOf(s', b)) {
      assert TallyOf(s', b) == TallyOf(s, b);
    }
  }

  lemma KeepNewNull(s: State, h: Handle)
    requires Inv(s) && h !in s.handles
    ensures Inv(SetHandle(s, h, Null))
  {
    hide TallyOf, BlockOK, Doing, StrongHolders, WeakHolders, Inv;
    forall b ensures |StrongHolders(s.handles[h := Null], b)| == |StrongHolders(s.handles, b)|
                  && |WeakHolders(s.handles[h := Null], b)| == |WeakHolders(s.handles, b)| {
      StrongPut(s.handles, h, Null, b);
      WeakPut(s.handles, h, Null, b);
    }
    KeepHandles(s, s.handles[h := Null]);
  }

  lemma KeepEnd(s: State, h: Handle)
    requires Inv(s) && Free(s, h) && s.handles[h] == Null
    ensures Inv(s.(handles := s.handles - {h}))
  {
    hide TallyOf, BlockOK, Doing, StrongHolders, WeakHolders, Inv;
    forall b ensures |StrongHolders(s.handles - {h}, b)| == |StrongHolders(s.handles, b)|
                  && |WeakHolders(s.handles - {h}, b)| == |WeakHolders(s.handles, b)| {
      HandleDropped(s.handles, h, b);
    }
    KeepHandles(s, s.handles - {h});
  }

  /** Exchanging the contents of two handles of one kind, where the second may be about to exist. */
  lemma KeepExchange(s: State, h: Handle, k: Handle, c: Cell)
    requires Inv(s) && Free(s, h) && SameKind(h, k) && h != k
    requires if k in s.handles then Free(s, k) && c == s.handles[k] else c == Null
    ensures Inv(s.(handles := s.handles[h := c][k := s.handles[h]]))
  {
    hide TallyOf, BlockOK, Doing, StrongHolders, WeakHolders, Inv;
    var m, m' := s.handles, s.handles[h := c][k := s.handles[h]];
    forall b ensures |StrongHolders(m', b)| == |StrongHolders(m, b)| && |WeakHolders(m', b)| == |WeakHolders(m, b)| {
      ExchangeCounts(m, h, k, c, b);
    }
    CellKnown(s, h);
    if k in m { CellKnown(s, k); }
    KeepHandles(s, m');
  }

  lemma ExchangeCounts(m: map<Handle, Cell>, h: Handle, k: Handle, c: Cell, b: BlockId)
    requires h in m && h != k && SameKind(h, k) && if k in m then c == m[k] else c == Null
    ensures |StrongHolders(m[h := c][k := m[h]], b)| == |StrongHolders(m, b)|
    ensures |WeakHolders(m[h := c][k := m[h]], b)| == |WeakHolders(m, b)|
  {
    hide StrongHolders, WeakHolders;
    StrongPut(m, h, c, b);
    StrongPut(m[h := c], k, m[h], b);
    WeakPut(m, h, c, b);
    WeakPut(m[h := c], k, m[h], b);
  }

  lemma CellKnown(s: State, h: Handle)
    requires Inv(s) && h in s.handles
    ensures CellOK(s, h)
  {
  }

  /** A step that starts an operation on an existing block through the handle `h`. */
  lemma KeepStart(s: State, s': State, t: Tid, h: Handle, c: Cell, op: Op)
    requires Inv(s) && t !in s.ops && op.b in s.blocks
    requires s' == Goto(SetHandle(s, h, c), t, op)
    requires h in s.handles ==> Free(s, h) && (s.handles[h] == c || s.handles[h] == Counted(op.b))
    requires c == Null || c == DstCell(t, op) || HasCell(s.handles, h, c)
    requires op.dst == if OwnedBy(c, t) then Some(h) else None
    requires OpOK(s', t, op)
    requires BlockOK(s.blocks[op.b], op.b, TallyOf(s', op.b))
    ensures Inv(s')
  {
    hide TallyOf, BlockOK, Doing, StrongHolders, WeakHolders, Inv;
    var b := op.b;
    OwnCells(s, t);
    OthersKeepWeak(s, t, b, s.blocks[b]);
    assert s'.ops - {t} == s.ops - {t};
    assert s'.handles - {h} == s.handles - {h};
    InvNoUb(s);
    Assemble(s, s', t, h, b);
  }

  lemma InvNoUb(s: State) requires Inv(s) ensures !s.ub { }

  lemma KeepCopy(s: State, t: Tid, src: Handle, dst: Handle)
    requires Inv(s) && Enabled(s, t, Copy(src, dst))
    ensures Inv(Apply(s, t, Copy(src, dst)))
  {
    hide TallyOf, Doing, StrongHolders, WeakHolders, Inv;
    var s' := Apply(s, t, Copy(src, dst));
    if s.handles[src].Null? {
      KeepNewNull(s, dst);
    } else {
      var op := s'.ops[t];
      BlockKnown(s, src);
      Tallies(s, s', t, dst, op.b);
      assert TallyOf(s', op.b) == TallyOf(s, op.b);
      KeepStart(s, s', t, dst, DstCell(t, op), op);
    }
  }

  lemma BlockKnown(s: State, h: Handle)
    requires Inv(s) && h in s.handles && s.handles[h].Counted?
    ensures s.handles[h].b in s.blocks
    ensures BlockOK(s.blocks[s.handles[h].b], s.handles[h].b, TallyOf(s, s.handles[h].b))
  {
    assert CellOK(s, h);
  }

  lemma KeepLock(s: State, t: Tid, src: Handle, dst: Handle)
    requires Inv(s) && Enabled(s, t, Lock(src, dst))
    ensures Inv(Apply(s, t, Lock(src, dst)))
  {
    hide TallyOf, Doing, StrongHolders, WeakHolders, Inv;
    var s' := Apply(s, t, Lock(src, dst));
    if s.handles[src].Null? {
      KeepNewNull(s, dst);
    } else {
      var op := s'.ops[t];
      BlockKnown(s, src);
      Tallies(s, s', t, dst, op.b);
      assert TallyOf(s', op.b) == TallyOf(s, op.b);
      KeepStart(s, s', t, dst, Building(t), op);
    }
  }

  lemma KeepReset(s: State, t: Tid, src: Handle)
    requires Inv(s) && Enabled(s, t, Reset(src))
    ensures Inv(Apply(s, t, Reset(src)))
  {
    hide TallyOf, Doing, StrongHolders, WeakHolders, Inv;
    var s' := Apply(s, t, Reset(src));
    if s.handles[src].Counted? {
      var op := s'.ops[t];
      BlockKnown(s, src);
      Tallies(s, s', t, src, op.b);
      KeepStart(s, s', t, src, Null, op);
    }
  }

  lemma KeepRead(s: State, t: Tid, a: Action)
    requires Inv(s) && Enabled(s, t, a) && (a.UseCount? || a.Expired?)
    ensures Inv(Apply(s, t, a))
  {
    hide TallyOf, Doing, StrongHolders, WeakHolders, Inv;
    var s' := Apply(s, t, a);
    if s.handles[a.src].Counted? {
      var op := s'.ops[t];
      BlockKnown(s, a.src);
      Tallies(s, s', t, Strong(0), op.b);
      assert TallyOf(s', op.b) == TallyOf(s, op.b);
      OwnCells(s, t);
      OthersKeepWeak(s, t, op.b, s.blocks[op.b]);
      assert s'.ops - {t} == s.ops - {t};
      InvNoUb(s);
      Assemble(s, s', t, Strong(0), op.b);
    }
  }

  /** Nothing refers to a block that was never allocated. */
  lemma FreshTally(s: State, b: BlockId)
    requires Inv(s) && b !in s.blocks
    ensures TallyOf(s, b) == Tally(0, 0, 0, 0, 0, 0, 0)
  {
    hide BlockOK;
    forall h | h in s.handles ensures s.handles[h] != Counted(b) { assert CellOK(s, h); }
    forall t | t in s.ops ensures s.ops[t].b != b { assert OpOK(s, t, s.ops[t]); }
    assert StrongHolders(s.handles, b) == {} && WeakHolders(s.handles, b) == {};
    NobodyDoing(s, Retained, b); NobodyDoing(s, Initial, b); NobodyDoing(s, WeakOwed, b);
    NobodyDoing(s, Implicit, b); NobodyDoing(s, Freeing, b);
  }

  lemma NobodyDoing(s: State, r: Role, b: BlockId)
    requires forall t | t in s.ops :: s.ops[t].b != b
    ensures Doing(s.ops, r, b) == {}
  {
  }

  lemma KeepMake(s: State, t: Tid, dst: Handle, b: BlockId)
    requires Inv(s) && Enabled(s, t, Make(dst, b))
    ensures Inv(Apply(s, t, Make(dst, b)))
  {
    hide TallyOf, Doing, StrongHolders, WeakHolders, Inv;
    var s' := Apply(s, t, Make(dst, b));
    FreshTally(s, b);
    Tallies(s, s', t, dst, b);
    OwnCells(s, t);
    NobodyOn(s, b);
    assert s'.ops - {t} == s.ops - {t};
    assert s'.handles - {dst} == s.handles - {dst};
    Assemble(s, s', t, dst, b);
  }

  lemma NobodyOn(s: State, b: BlockId)
    requires Inv(s) && b !in s.blocks
    ensures !s.ub && forall u | u in s.ops :: s.ops[u].b != b
  {
    forall u | u in s.ops ensures s.ops[u].b != b { assert OpOK(s, u, s.ops[u]); }
  }

  /** The step is the compare-and-swap of `lock`, the only increment that the source does not guard. */
  predicate Locks(s: State, t: Tid, a: Action) { a.Resume? && t in s.ops && s.ops[t].at.LockCas? }

  /**
   Every step of every thread keeps the invariant, provided that the strong references still fit a
   `size_t` after the compare-and-swap of `lock`.
   */
  lemma StepKeepsInv(s: State, t: Tid, a: Action)
    requires Inv(s) && Enabled(s, t, a) && (Locks(s, t, a) ==> Bounded(Apply(s, t, a)))
    ensures Inv(Apply(s, t, a))
  {
    hide TallyOf, BlockOK, Doing, StrongHolders, WeakHolders, Inv, Bounded, Continue;
    match a
    case Default(dst) => KeepNewNull(s, dst);
    case Make(dst, b) => KeepMake(s, t, dst, b);
    case Copy(src, dst) => KeepCopy(s, t, src, dst);
    case Move(src, dst) =>
      KeepExchange(s, src, dst, Null);
      assert s.handles[src := Null][dst := s.handles[src]] == s.handles[dst := s.handles[src]][src := Null];
    case Swap(src, dst) =>
      if src == dst {
        assert Apply(s, t, a) == s;
      } else {
        KeepExchange(s, src, dst, s.handles[dst]);
      }
    case Reset(src) => KeepReset(s, t, src);
    case End(src) => KeepEnd(s, src);
    case Lock(src, dst) => KeepLock(s, t, src, dst);
    case UseCount(_) => KeepRead(s, t, a);
    case Expired(_) => KeepRead(s, t, a);
    case Resume(spurious, throws) => KeepResume(s, t, spurious, throws);
  }

  /** The invariant includes the bound, so no other step can break it: `increment_ref_count` terminates first. */
  lemma InvIsBounded(s: State)
    requires Inv(s)
    ensures Bounded(s)
  {
    hide Doing, StrongHolders, WeakHolders;
    forall b | b in s.blocks ensures |StrongHolders(s.handles, b)| + |Doing(s.ops, Retained, b)| <= SIZE_MAX {
      assert BlockOK(s.blocks[b], b, TallyOf(s, b));
    }
  }
}
