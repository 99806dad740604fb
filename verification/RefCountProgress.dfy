/** What a call comes to when its thread runs alone for a while: every call ends, with the answer it should give. */
module RefCountProgress {
  import opened Core
  import opened RefCountMachine
  import opened RefCountInvariant
  import opened RefCountSteps
  import opened RefCountRefinement
  import opened RefCountRuns

  // ----- Termination of the program

  /**
   The program terminates only in a copy, whose thread has read a counter at SIZE_MAX in its last step
   before. No step of `lock`, `reset`, `use_count` or `expired` terminates it.
   */
  lemma TerminatesOnlyAtLimit(h: History, t: Tid, a: Action) returns (r: History)
    requires Legal(More(h, t, a)) && Last(More(h, t, a)).terminated
    ensures a.Resume? && AtCas(Last(h), t) && Copying(Last(h).ops[t].at)
    ensures r.More? && r.t == t && Continues(r, h) && Pauses(t, r, h)
    ensures var op := Last(h).ops[t];
      t in Last(r).ops && Last(r).ops[t] == op && ValueOf(Last(r), op.b, Expects(op.at).value.0) == Some(SIZE_MAX)
  {
    hide Continue, Bounded;
    if a.Resume? { ResumeTerminates(Last(h), t, a.spurious, a.throws); }
    r := LastRead(t, h);
  }

  lemma ResumeTerminates(s: State, t: Tid, spurious: bool, throws: bool)
    requires t in s.ops && !s.terminated
    ensures Continue(s, t, spurious, throws).terminated
       <==> s.ops[t].at == CopyCas(SIZE_MAX) || s.ops[t].at == WeakCas(SIZE_MAX)
  {
  }

  // ----- Every call ends

  /** How many of its own steps, at most, the operation of `t` still needs if no other thread interferes. */
  function Rank(s: State, t: Tid): nat
    requires t in s.ops
  {
    var again := if UpToDate(s, t) then 0 else 1;
    match s.ops[t].at
    case CopyDeref => 3
    case CopyLoad => 2
    case CopyCas(_) => 1 + again
    case RelDeref => 6
    case RelSub => 5
    case RelExchange => 4
    case RelDelete(_) => 3
    case BaseDtor => 2
    case WeakSub => 2
    case FreeBlock => 1
    case WeakDeref => 3
    case WeakLoad => 2
    case WeakCas(_) => 1 + again
    case LockLoad => 3
    case LockCas(_) => 2 + again
    case LockTarget => 1
    case Construct => 3
    case UnwindDtor => 2
    case UseDeref => 2
    case UseLoad => 1
    case ExpiredLoad => 1
  }

  /** Every step that does not fail spuriously brings its call closer to the end. */
  lemma SoloStep(s: State, t: Tid, throws: bool)
    requires Inv(s) && t in s.ops
    ensures Rank(s, t) >= 1
    ensures var s' := Continue(s, t, false, throws); s'.terminated || t !in s'.ops || Rank(s', t) < Rank(s, t)
  {
    hide TallyOf, StrongHolders, WeakHolders, Doing, Inv, BlockOK;
    Protected(s, t);
  }

  /** One more step of `t`, which neither fails spuriously nor throws. */
  function Step(h: History, t: Tid): History { More(h, t, Resume(false, false)) }

  /** After the run `h` only `t` makes steps, inside one operation, without spurious failures and exceptions. */
  ghost predicate Alone(t: Tid, h: History, k: History) {
    k == h || (k.More? && k == Step(k.prev, t) && t in Last(k.prev).ops && Alone(t, h, k.prev))
  }

  /** `lock` has not taken its reference yet, and the count can still grow. */
  predicate Room(s: State, t: Tid)
    requires t in s.ops
  {
    var op := s.ops[t];
    op.at.LockLoad? || op.at.LockCas? ==> op.b in s.blocks && s.blocks[op.b].strong < SIZE_MAX
  }

  lemma StepIsLegal(h: History, t: Tid)
    requires Legal(h) && !Last(h).terminated && t in Last(h).ops && Room(Last(h), t)
    ensures Legal(Step(h, t)) && Last(Step(h, t)) == Continue(Last(h), t, false, false)
  {
    hide Inv, Bounded, Continue, Room;
    var s := Last(h);
    ReachableInv(h);
    InvNoUb(s);
    if s.ops[t].at.LockCas? { LockStepFits(s, t); }
  }

  lemma LockStepFits(s: State, t: Tid)
    requires Inv(s) && t in s.ops && s.ops[t].at.LockCas? && Room(s, t)
    ensures Bounded(Continue(s, t, false, false))
  {
    hide Inv, Bounded, BlockOK, TallyOf, StrongHolders, WeakHolders, Doing;
    Protected(s, t);
    if s.blocks[s.ops[t].b].strong == s.ops[t].at.seen { KeepLockCas(s, t); } else { KeepTryLock(s, t); }
    InvIsBounded(Continue(s, t, false, false));
  }

  lemma RoomKept(s: State, t: Tid)
    requires Inv(s) && t in s.ops && Room(s, t)
    ensures var s' := Continue(s, t, false, false); t in s'.ops ==> Room(s', t)
  {
    hide TallyOf, StrongHolders, WeakHolders, Doing, Inv, BlockOK;
    Protected(s, t);
  }

  /**
   No call depends on another thread: from any moment of any run, left alone, every operation ends within
   six steps, unless the program terminates because a copy has met a counter at SIZE_MAX.
   */
  lemma EveryCallEnds(h: History, t: Tid) returns (k: History)
    requires Legal(h) && !Last(h).terminated && t in Last(h).ops && Room(Last(h), t)
    ensures Legal(k) && Alone(t, h, k) && Steps(k) <= Steps(h) + Rank(Last(h), t) <= Steps(h) + 6
    ensures t !in Last(k).ops || (Last(k).terminated && AtCas(Last(k), t) && Copying(Last(k).ops[t].at))
  {
    hide Legal, Last, Room;
    k := EndsWithin(h, t, Rank(Last(h), t));
  }

  lemma {:induction false} EndsWithin(h: History, t: Tid, n: nat) returns (k: History)
    requires Legal(h) && !Last(h).terminated && t in Last(h).ops && Room(Last(h), t) && Rank(Last(h), t) <= n
    ensures Legal(k) && Alone(t, h, k) && Steps(k) <= Steps(h) + n
    ensures t !in Last(k).ops || (Last(k).terminated && AtCas(Last(k), t) && Copying(Last(k).ops[t].at))
    decreases n
  {
    hide Legal, Last, Continue, Rank, Inv, Room;
    k := Step(h, t);
    StepIsLegal(h, t);
    ReachableInv(h);
    SoloStep(Last(h), t, false);
    RoomKept(Last(h), t);
    ResumeTerminates(Last(h), t, false, false);
    if Last(k).terminated {
      TerminatedInPlace(Last(h), t);
    } else if t in Last(k).ops {
      k := EndsWithin(k, t, n - 1);
    }
    AloneFrom(t, h, k);
  }

  lemma TerminatedInPlace(s: State, t: Tid)
    requires t in s.ops && (s.ops[t].at == CopyCas(SIZE_MAX) || s.ops[t].at == WeakCas(SIZE_MAX))
    ensures Continue(s, t, false, false).ops == s.ops
  {
  }

  lemma {:induction false} AloneFrom(t: Tid, h: History, k: History)
    requires t in Last(h).ops && Alone(t, Step(h, t), k)
    ensures Alone(t, h, k)
  {
    hide Last;
    if k != Step(h, t) { AloneFrom(t, h, k.prev); }
  }

  // ----- What a call comes to

  /** The state with the operation `op` of `t`, the handles `m`, and `block` in place of the block of `op`. */
  function With(s: State, t: Tid, op: Op, m: map<Handle, Cell>, block: Block): State {
    s.(blocks := s.blocks[op.b := block], handles := m, ops := s.ops[t := op])
  }

  /** The run is extended by the first step of a call. */
  lemma Starts(h: History, t: Tid, a: Action, s': State)
    requires Legal(h) && Enabled(Last(h), t, a) && !a.Resume? && Apply(Last(h), t, a) == s'
    ensures Legal(More(h, t, a)) && Last(More(h, t, a)) == s' && Alone(t, More(h, t, a), More(h, t, a))
  {
  }

  /** The run is extended by one more step. */
  lemma Goes(start: History, h: History, t: Tid, s': State) returns (k: History)
    requires Legal(h) && !Last(h).terminated && t in Last(h).ops && Room(Last(h), t)
    requires Continue(Last(h), t, false, false) == s' && Alone(t, start, h)
    ensures k == Step(h, t) && Legal(k) && Last(k) == s' && Alone(t, start, k)
  {
    hide Legal, Last, Continue, Room;
    StepIsLegal(h, t);
    k := Step(h, t);
  }

  /** The thread is free to start a call that reads the handle `src` on `b` and makes the handle `dst`. */
  ghost predicate Ready(h: History, t: Tid, src: Handle, dst: Handle, b: BlockId) {
    && Legal(h) && !Last(h).terminated && t !in Last(h).ops
    && HasCell(Last(h).handles, src, Counted(b)) && dst !in Last(h).handles
  }

  /** The block of a finished handle; the target of a finished strong handle. */
  lemma SourceUsable(h: History, src: Handle, b: BlockId)
    requires Legal(h) && HasCell(Last(h).handles, src, Counted(b))
    ensures var s := Last(h);
      && BlockUsable(s, b) && !s.ub
      && s.blocks[b].strong <= SIZE_MAX && 0 < s.blocks[b].weak <= SIZE_MAX
      && s.blocks[b].life != Constructing
      && (src.Strong? ==> s.blocks[b].life == Alive && s.blocks[b].strong > 0)
      && (s.blocks[b].strong > 0 ==>
            s.blocks[b].life == Alive && s.blocks[b].target == Some(b) && s.blocks[b].deletes == 0)
  {
    hide TallyOf, StrongHolders, WeakHolders, Doing, Legal, Last, Inv;
    ReachableInv(h);
    var s := Last(h);
    InvNoUb(s);
    BlockKnown(s, src);
    StrongPut(s.handles, src, Null, b);
    WeakPut(s.handles, src, Null, b);
    TallyStrong(s, b);
    TallyWeak(s, b);
  }

  lemma TallyWeak(s: State, b: BlockId)
    ensures TallyOf(s, b).weak == |WeakHolders(s.handles, b)|
  {
  }

  /** The state in which the call has ended and has left the handles `m` and the block `block`. */
  function Done(s: State, b: BlockId, m: map<Handle, Cell>, block: Block): State {
    s.(handles := m, blocks := s.blocks[b := block])
  }

  /** Ending an operation, or writing its block, where the state is given by `With`. */
  lemma WithFacts(s: State, t: Tid, op: Op, m: map<Handle, Cell>, block: Block)
    requires t !in s.ops
    ensures var w := With(s, t, op, m, block);
      && t in w.ops && w.ops[t] == op && op.b in w.blocks && w.blocks[op.b] == block
      && (forall at: Point {:trigger Advance(w, t, at)} :: Advance(w, t, at) == With(s, t, op.(at := at), m, block))
      && (forall x {:trigger SetBlock(w, op.b, x)} :: SetBlock(w, op.b, x) == With(s, t, op, m, x))
      && (forall c {:trigger Publish(w, t, c)} :: op.dst.Some? ==>
            Publish(w, t, c) == Done(s, op.b, m[op.dst.value := c], block))
      && Finish(w, t) == Done(s, op.b, m, block)
  {
    forall x ensures SetBlock(With(s, t, op, m, block), op.b, x) == With(s, t, op, m, x) {
      assert s.blocks[op.b := block][op.b := x] == s.blocks[op.b := x];
    }
    forall at: Point ensures s.ops[t := op][t := op.(at := at)] == s.ops[t := op.(at := at)] { }
    assert s.ops[t := op] - {t} == s.ops;
  }

  lemma LockSteps(s: State, t: Tid, op: Op, m: map<Handle, Cell>, block: Block)
    requires t !in s.ops && block.frees == 0 && op.dst.Some?
    ensures var s', n, h := Continue(With(s, t, op, m, block), t, false, false), block.strong, op.dst.value;
      && (op.at.LockLoad? ==>
            s' == if n == 0 then Done(s, op.b, m[h := Null], block) else With(s, t, op.(at := LockCas(n)), m, block))
      && (op.at == LockCas(n) && n < SIZE_MAX ==>
            s' == With(s, t, op.(at := LockTarget), m, block.(strong := n + 1)))
      && (op.at.LockTarget? && block.target == Some(op.b) ==> s' == Done(s, op.b, m[h := Counted(op.b)], block))
  {
    WithFacts(s, t, op, m, block);
    WithFacts(s, t, op, m, block.(strong := block.strong + 1));
    hide Advance, SetBlock, Publish, Finish, With;
  }

  /** `lock`, left alone, makes a counted handle if the count is positive, and an empty one otherwise. */
  lemma LockAlone(h: History, t: Tid, src: Handle, dst: Handle, b: BlockId) returns (k: History)
    requires Ready(h, t, src, dst, b) && src.Weak? && dst.Strong?
    requires b in Last(h).blocks && Last(h).blocks[b].strong < SIZE_MAX
    ensures Legal(k) && Alone(t, More(h, t, Lock(src, dst)), k)
    ensures var s := Last(h); var block := s.blocks[b];
      Last(k) == if block.strong == 0 then s.(handles := s.handles[dst := Null])
                 else s.(handles := s.handles[dst := Counted(b)],
                         blocks := s.blocks[b := block.(strong := block.strong + 1)])
  {
    hide Legal, Last, Alone, Continue;
    SourceUsable(h, src, b);
    var s, block := Last(h), Last(h).blocks[b];
    var n, m, op := block.strong, s.handles[dst := Building(t)], Op(LockLoad, Some(src), Some(dst), b);
    var block' := block.(strong := n + 1);
    assert s.blocks[b := block] == s.blocks;
    var start := More(h, t, Lock(src, dst));
    Starts(h, t, Lock(src, dst), With(s, t, op, m, block));
    LockSteps(s, t, op, m, block);
    if n == 0 {
      k := Goes(start, start, t, Done(s, b, m[dst := Null], block));
    } else {
      k := Goes(start, start, t, With(s, t, op.(at := LockCas(n)), m, block));
      LockSteps(s, t, op.(at := LockCas(n)), m, block);
      k := Goes(start, k, t, With(s, t, op.(at := LockTarget), m, block'));
      LockSteps(s, t, op.(at := LockTarget), m, block');
      k := Goes(start, k, t, Done(s, b, m[dst := Counted(b)], block'));
    }
  }

  lemma CopySteps(s: State, t: Tid, op: Op, m: map<Handle, Cell>, block: Block)
    requires t !in s.ops && block.frees == 0 && op.dst.Some? && !s.terminated
    ensures var w := With(s, t, op, m, block);
      var s', h := Continue(w, t, false, false), op.dst.value;
      && (op.at.CopyDeref? && block.life == Alive ==> s' == With(s, t, op.(at := CopyLoad), m, block))
      && (op.at.CopyLoad? ==> s' == With(s, t, op.(at := CopyCas(block.strong)), m, block))
      && (op.at == CopyCas(block.strong) ==>
            s' == if block.strong == SIZE_MAX then w.(terminated := true)
                  else Done(s, op.b, m[h := Counted(op.b)], block.(strong := Inc(block.strong))))
      && (op.at.WeakDeref? && block.life == Alive ==>
            s' == With(s, t, op.(at := WeakLoad), m[h := Uncounted(op.b, t)], block))
      && (op.at.WeakLoad? ==> s' == With(s, t, op.(at := WeakCas(block.weak)), m, block))
      && (op.at == WeakCas(block.weak) ==>
            s' == if block.weak == SIZE_MAX then w.(terminated := true)
                  else Done(s, op.b, m[h := Counted(op.b)], block.(weak := Inc(block.weak))))
  {
    WithFacts(s, t, op, m, block);
    WithFacts(s, t, op, m, block.(strong := Inc(block.strong)));
    WithFacts(s, t, op, m, block.(weak := Inc(block.weak)));
    assert op.at.WeakDeref? ==>
        Advance(SetHandle(With(s, t, op, m, block), op.dst.value, Uncounted(op.b, t)), t, WeakLoad)
        == With(s, t, op.(at := WeakLoad), m[op.dst.value := Uncounted(op.b, t)], block) by {
      WithFacts(s, t, op, m[op.dst.value := Uncounted(op.b, t)], block);
    }
    hide Advance, SetBlock, SetHandle, Publish, Finish, With, Inc;
  }

  /** Copying a strong handle, left alone, makes a handle and adds 1, or terminates the program at SIZE_MAX. */
  lemma CopyAlone(h: History, t: Tid, src: Handle, dst: Handle, b: BlockId) returns (k: History)
    requires Ready(h, t, src, dst, b) && src.Strong? && dst.Strong?
    ensures Legal(k) && Alone(t, More(h, t, Copy(src, dst)), k) && b in Last(h).blocks
    ensures var s := Last(h); var block := s.blocks[b];
      if block.strong == SIZE_MAX then Last(k).terminated
      else Last(k) == s.(handles := s.handles[dst := Counted(b)],
                         blocks := s.blocks[b := block.(strong := block.strong + 1)])
  {
    hide Legal, Last, Alone, Continue;
    SourceUsable(h, src, b);
    var s, block := Last(h), Last(h).blocks[b];
    var n, m, op := block.strong, s.handles[dst := Uncounted(b, t)], Op(CopyDeref, Some(src), Some(dst), b);
    assert s.blocks[b := block] == s.blocks;
    var start := More(h, t, Copy(src, dst));
    Starts(h, t, Copy(src, dst), With(s, t, op, m, block));
    CopySteps(s, t, op, m, block);
    k := Goes(start, start, t, With(s, t, op.(at := CopyLoad), m, block));
    CopySteps(s, t, op.(at := CopyLoad), m, block);
    k := Goes(start, k, t, With(s, t, op.(at := CopyCas(n)), m, block));
    CopySteps(s, t, op.(at := CopyCas(n)), m, block);
    k := Goes(start, k, t, Continue(Last(k), t, false, false));
  }

  /** The same for weak handles, made from a strong or from a weak one. */
  lemma CopyWeakAlone(h: History, t: Tid, src: Handle, dst: Handle, b: BlockId) returns (k: History)
    requires Ready(h, t, src, dst, b) && dst.Weak?
    ensures Legal(k) && Alone(t, More(h, t, Copy(src, dst)), k) && b in Last(h).blocks
    ensures var s := Last(h); var block := s.blocks[b];
      if block.weak == SIZE_MAX then Last(k).terminated
      else Last(k) == s.(handles := s.handles[dst := Counted(b)],
                         blocks := s.blocks[b := block.(weak := block.weak + 1)])
  {
    hide Legal, Last, Alone, Continue;
    SourceUsable(h, src, b);
    var s, block := Last(h), Last(h).blocks[b];
    var n, m, op := block.weak, s.handles[dst := Uncounted(b, t)], Op(WeakLoad, Some(src), Some(dst), b);
    assert s.blocks[b := block] == s.blocks;
    var start := More(h, t, Copy(src, dst));
    if src.Strong? {
      var m0 := s.handles[dst := Building(t)];
      assert m0[dst := Uncounted(b, t)] == m;
      Starts(h, t, Copy(src, dst), With(s, t, op.(at := WeakDeref), m0, block));
      CopySteps(s, t, op.(at := WeakDeref), m0, block);
      k := Goes(start, start, t, With(s, t, op, m, block));
    } else {
      Starts(h, t, Copy(src, dst), With(s, t, op, m, block));
      k := start;
    }
    CopySteps(s, t, op, m, block);
    k := Goes(start, k, t, With(s, t, op.(at := WeakCas(n)), m, block));
    CopySteps(s, t, op.(at := WeakCas(n)), m, block);
    k := Goes(start, k, t, Continue(Last(k), t, false, false));
  }

  lemma ReleaseSteps(s: State, t: Tid, b: BlockId, at: Point, m: map<Handle, Cell>, block: Block)
    requires t !in s.ops && block.frees == 0
    ensures var s', n := Continue(With(s, t, Op(at, None, None, b), m, block), t, false, false), block.strong;
      && (at.RelDeref? && block.life == Alive ==> s' == With(s, t, Op(RelSub, None, None, b), m, block))
      && (at.RelSub? && n == 1 ==> s' == With(s, t, Op(RelExchange, None, None, b), m, block.(strong := 0)))
      && (at.RelSub? && n > 1 ==> s' == Done(s, b, m, block.(strong := n - 1)))
      && (at.RelExchange? && block.target == Some(b) ==>
            s' == With(s, t, Op(RelDelete(Some(b)), None, None, b), m, block.(target := None)))
  {
    var op := Op(at, None, None, b);
    WithFacts(s, t, op, m, block);
    WithFacts(s, t, op, m, block.(strong := Dec(block.strong)));
    WithFacts(s, t, op, m, block.(target := None));
    hide Advance, SetBlock, Publish, Finish, With;
  }

  lemma DisposeSteps(s: State, t: Tid, b: BlockId, at: Point, m: map<Handle, Cell>, block: Block)
    requires t !in s.ops && block.frees == 0
    ensures var s', weak := Continue(With(s, t, Op(at, None, None, b), m, block), t, false, false), block.weak;
      && (at == RelDelete(Some(b)) && block.life == Alive ==>
            s' == With(s, t, Op(BaseDtor, None, None, b), m, block.(life := Dying, deletes := block.deletes + 1)))
      && ((at.BaseDtor? || at.UnwindDtor?) && weak == 1 ==>
            s' == With(s, t, Op(FreeBlock, None, None, b), m, block.(weak := 0, life := Gone)))
      && ((at.BaseDtor? || at.UnwindDtor?) && weak > 1 ==>
            s' == Done(s, b, m, block.(weak := weak - 1, life := Gone)))
      && (at.WeakSub? && weak == 1 ==> s' == With(s, t, Op(FreeBlock, None, None, b), m, block.(weak := 0)))
      && (at.WeakSub? && weak > 1 ==> s' == Done(s, b, m, block.(weak := weak - 1)))
      && (at.FreeBlock? ==> s' == Done(s, b, m, block.(frees := 1)))
  {
    var op := Op(at, None, None, b);
    WithFacts(s, t, op, m, block);
    WithFacts(s, t, op, m, block.(weak := Dec(block.weak)));
    WithFacts(s, t, op, m, block.(weak := Dec(block.weak), life := Gone));
    WithFacts(s, t, op, m, block.(frees := 1));
    var dying := block.(life := Dying, deletes := block.deletes + 1);
    assert Goto(With(s, t, op, m, dying), t, Op(BaseDtor, None, None, b))
        == With(s, t, Op(BaseDtor, None, None, b), m, dying) by {
      WithFacts(s, t, op, m, dying);
      assert s.ops[t := op][t := Op(BaseDtor, None, None, b)] == s.ops[t := Op(BaseDtor, None, None, b)];
    }
    hide Advance, SetBlock, Publish, Finish, With, Goto;
  }

  /** The thread is free to start a call on the handle `src` on `b`, which nobody else uses. */
  ghost predicate ReadyToReset(h: History, t: Tid, src: Handle, b: BlockId) {
    && Legal(h) && !Last(h).terminated && t !in Last(h).ops
    && Free(Last(h), src) && HasCell(Last(h).handles, src, Counted(b))
  }

  /** The block after its last weak reference, the implicit one included, or another one has been given up. */
  lemma DisposeAlone(start: History, h: History, s: State, t: Tid, b: BlockId,
                     at: Point, m: map<Handle, Cell>, block: Block)
      returns (k: History)
    requires Legal(h) && Alone(t, start, h) && Last(h) == With(s, t, Op(at, None, None, b), m, block)
    requires t !in s.ops && !s.terminated && block.frees == 0 && block.weak > 0
    requires at.BaseDtor? || at.UnwindDtor? || at.WeakSub?
    ensures Legal(k) && Alone(t, start, k)
    ensures var life, weak := if at.WeakSub? then block.life else Gone, block.weak - 1;
      Last(k) == s.(handles := m,
                    blocks := s.blocks[b := block.(weak := weak, life := life, frees := One(weak == 0))])
  {
    hide Legal, Last, Alone, Continue;
    var life := if at.WeakSub? then block.life else Gone;
    DisposeSteps(s, t, b, at, m, block);
    if block.weak == 1 {
      var block' := block.(weak := 0, life := life);
      k := Goes(start, h, t, With(s, t, Op(FreeBlock, None, None, b), m, block'));
      DisposeSteps(s, t, b, FreeBlock, m, block');
      k := Goes(start, k, t, Done(s, b, m, block'.(frees := 1)));
    } else {
      k := Goes(start, h, t, Done(s, b, m, block.(weak := block.weak - 1, life := life)));
    }
  }

  /** Resetting one of several strong handles, left alone, subtracts 1 and does nothing else. */
  lemma ResetSharedAlone(h: History, t: Tid, src: Handle, b: BlockId) returns (k: History)
    requires ReadyToReset(h, t, src, b) && src.Strong? && b in Last(h).blocks && Last(h).blocks[b].strong > 1
    ensures Legal(k) && Alone(t, More(h, t, Reset(src)), k)
    ensures var s := Last(h); var block := s.blocks[b];
      Last(k) == s.(handles := s.handles[src := Null], blocks := s.blocks[b := block.(strong := block.strong - 1)])
  {
    hide Legal, Last, Alone, Continue;
    SourceUsable(h, src, b);
    var s, block := Last(h), Last(h).blocks[b];
    var m := s.handles[src := Null];
    assert s.blocks[b := block] == s.blocks;
    var start := More(h, t, Reset(src));
    Starts(h, t, Reset(src), With(s, t, Op(RelDeref, None, None, b), m, block));
    ReleaseSteps(s, t, b, RelDeref, m, block);
    k := Goes(start, start, t, With(s, t, Op(RelSub, None, None, b), m, block));
    ReleaseSteps(s, t, b, RelSub, m, block);
    k := Goes(start, k, t, Done(s, b, m, block.(strong := block.strong - 1)));
  }

  /** Resetting the last strong handle, left alone, deletes the target, and the block if no weak handle is left. */
  lemma ResetLastAlone(h: History, t: Tid, src: Handle, b: BlockId) returns (k: History)
    requires ReadyToReset(h, t, src, b) && src.Strong? && b in Last(h).blocks && Last(h).blocks[b].strong == 1
    ensures Legal(k) && Alone(t, More(h, t, Reset(src)), k)
    ensures var s := Last(h); var weak := s.blocks[b].weak - 1;
      weak >= 0
      && Last(k) == s.(handles := s.handles[src := Null],
                       blocks := s.blocks[b := Block(0, weak, None, Gone, 1, One(weak == 0))])
  {
    hide Legal, Last, Alone, Continue;
    SourceUsable(h, src, b);
    var s, block := Last(h), Last(h).blocks[b];
    var m := s.handles[src := Null];
    assert s.blocks[b := block] == s.blocks;
    var start := More(h, t, Reset(src));
    Starts(h, t, Reset(src), With(s, t, Op(RelDeref, None, None, b), m, block));
    ReleaseSteps(s, t, b, RelDeref, m, block);
    k := Goes(start, start, t, With(s, t, Op(RelSub, None, None, b), m, block));
    ReleaseSteps(s, t, b, RelSub, m, block);
    var block1 := block.(strong := 0);
    k := Goes(start, k, t, With(s, t, Op(RelExchange, None, None, b), m, block1));
    ReleaseSteps(s, t, b, RelExchange, m, block1);
    var block2 := block1.(target := None);
    k := Goes(start, k, t, With(s, t, Op(RelDelete(Some(b)), None, None, b), m, block2));
    DisposeSteps(s, t, b, RelDelete(Some(b)), m, block2);
    var block3 := block2.(life := Dying, deletes := 1);
    k := Goes(start, k, t, With(s, t, Op(BaseDtor, None, None, b), m, block3));
    k := DisposeAlone(start, k, s, t, b, BaseDtor, m, block3);
  }

  /** Resetting a weak handle, left alone, subtracts 1, and frees the block with its last reference. */
  lemma ResetWeakAlone(h: History, t: Tid, src: Handle, b: BlockId) returns (k: History)
    requires ReadyToReset(h, t, src, b) && src.Weak?
    ensures Legal(k) && Alone(t, More(h, t, Reset(src)), k) && b in Last(h).blocks && Last(h).blocks[b].weak > 0
    ensures var s := Last(h); var block, weak := s.blocks[b], s.blocks[b].weak - 1;
      Last(k) == s.(handles := s.handles[src := Null],
                    blocks := s.blocks[b := block.(weak := weak, frees := One(weak == 0))])
  {
    hide Legal, Last, Alone, Continue;
    SourceUsable(h, src, b);
    var s, block := Last(h), Last(h).blocks[b];
    var m := s.handles[src := Null];
    assert s.blocks[b := block] == s.blocks;
    var start := More(h, t, Reset(src));
    Starts(h, t, Reset(src), With(s, t, Op(WeakSub, None, None, b), m, block));
    k := DisposeAlone(start, start, s, t, b, WeakSub, m, block);
  }

  /** `make_intrusive`, left alone, makes one handle with count 1. */
  lemma MakeAlone(h: History, t: Tid, dst: Handle, b: BlockId) returns (k: History)
    requires Legal(h) && !Last(h).terminated && t !in Last(h).ops
    requires dst.Strong? && dst !in Last(h).handles && b !in Last(h).blocks
    ensures Legal(k) && Alone(t, More(h, t, Make(dst, b)), k)
    ensures var s := Last(h);
      Last(k) == s.(handles := s.handles[dst := Counted(b)], blocks := s.blocks[b := Block(1, 1, Some(b), Alive, 0, 0)])
  {
    hide Legal, Last, Alone, Continue;
    ReachableInv(h);
    InvNoUb(Last(h));
    var s, block := Last(h), Block(1, 1, Some(b), Constructing, 0, 0);
    var m, op := s.handles[dst := Building(t)], Op(Construct, None, Some(dst), b);
    var start := More(h, t, Make(dst, b));
    Starts(h, t, Make(dst, b), With(s, t, op, m, block));
    ConstructSteps(s, t, op, m, block);
    k := Goes(start, start, t, Done(s, b, m[dst := Counted(b)], block.(life := Alive)));
  }

  lemma ConstructSteps(s: State, t: Tid, op: Op, m: map<Handle, Cell>, block: Block)
    requires t !in s.ops && op.at.Construct? && op.dst.Some?
    ensures Continue(With(s, t, op, m, block), t, false, false)
         == Done(s, op.b, m[op.dst.value := Counted(op.b)], block.(life := Alive))
    ensures Continue(With(s, t, op, m, block), t, false, true)
         == With(s, t, Op(UnwindDtor, None, None, op.b), m - {op.dst.value}, block.(life := Dying))
  {
    WithFacts(s, t, op, m, block);
    WithFacts(s, t, op, m, block.(life := Alive));
    assert s.ops[t := op][t := Op(UnwindDtor, None, None, op.b)] == s.ops[t := Op(UnwindDtor, None, None, op.b)];
    assert s.blocks[op.b := block][op.b := block.(life := Dying)] == s.blocks[op.b := block.(life := Dying)];
  }

  /** If the constructor throws, no handle is left, and the block is freed with its strong count still 1. */
  lemma MakeThrowsAlone(h: History, t: Tid, dst: Handle, b: BlockId) returns (k: History)
    requires Legal(h) && !Last(h).terminated && t !in Last(h).ops
    requires dst.Strong? && dst !in Last(h).handles && b !in Last(h).blocks
    ensures Legal(k) && Alone(t, More(More(h, t, Make(dst, b)), t, Resume(false, true)), k)
    ensures Last(k) == Last(h).(blocks := Last(h).blocks[b := Block(1, 0, Some(b), Gone, 0, 1)])
  {
    hide Legal, Last, Alone, Continue, Bounded;
    ReachableInv(h);
    InvNoUb(Last(h));
    var s, block := Last(h), Block(1, 1, Some(b), Constructing, 0, 0);
    var m, op := s.handles[dst := Building(t)], Op(Construct, None, Some(dst), b);
    k := More(h, t, Make(dst, b));
    Starts(h, t, Make(dst, b), With(s, t, op, m, block));
    ConstructSteps(s, t, op, m, block);
    assert m - {dst} == s.handles;
    var block' := block.(life := Dying);
    Extend(k, t, Resume(false, true), With(s, t, Op(UnwindDtor, None, None, b), s.handles, block'));
    k := More(k, t, Resume(false, true));
    AloneAtStart(t, k);
    k := DisposeAlone(k, k, s, t, b, UnwindDtor, s.handles, block');
  }

  lemma AloneAtStart(t: Tid, h: History)
    ensures Alone(t, h, h)
  {
  }

  // ----- The calls that only read

  /** The count that a `use_count`, or the test of an `expired`, observes in its last step. */
  function Observed(s: State, t: Tid): Option<nat> {
    if t in s.ops && (s.ops[t].at.UseLoad? || s.ops[t].at.ExpiredLoad?) && s.ops[t].b in s.blocks
    then Some(s.blocks[s.ops[t].b].strong) else None
  }

  /** `use_count` and `expired`, left alone, observe the count and change nothing. */
  lemma ReadAlone(h: History, t: Tid, a: Action, b: BlockId) returns (r: History, k: History)
    requires Legal(h) && !Last(h).terminated && t !in Last(h).ops
    requires (a.UseCount? && a.src.Strong?) || (a.Expired? && a.src.Weak?)
    requires HasCell(Last(h).handles, a.src, Counted(b))
    ensures Legal(r) && Alone(t, More(h, t, a), r)
    ensures b in Last(h).blocks && Observed(Last(r), t) == Some(Last(h).blocks[b].strong)
    ensures Legal(k) && k == Step(r, t) && Last(k) == Last(h)
  {
    hide Legal, Last, Alone, Continue;
    SourceUsable(h, a.src, b);
    var s, block := Last(h), Last(h).blocks[b];
    assert s.blocks[b := block] == s.blocks;
    var at := if a.UseCount? then UseDeref else ExpiredLoad;
    var op := Op(at, Some(a.src), None, b);
    var start := More(h, t, a);
    r := start;
    Starts(h, t, a, With(s, t, op, s.handles, block));
    if a.UseCount? {
      ReadSteps(s, t, op, s.handles, block);
      op := op.(at := UseLoad);
      r := Goes(start, start, t, With(s, t, op, s.handles, block));
    }
    ReadSteps(s, t, op, s.handles, block);
    k := Goes(start, r, t, s);
  }

  lemma ReadSteps(s: State, t: Tid, op: Op, m: map<Handle, Cell>, block: Block)
    requires t !in s.ops && block.frees == 0
    ensures var s' := Continue(With(s, t, op, m, block), t, false, false);
      && (op.at.UseDeref? && block.life == Alive ==> s' == With(s, t, op.(at := UseLoad), m, block))
      && (op.at.UseLoad? || op.at.ExpiredLoad? ==> s' == Done(s, op.b, m, block))
  {
    WithFacts(s, t, op, m, block);
    hide Advance, SetBlock, Publish, Finish, With;
  }

  /**
   What is observed: `use_count` the number of owners, at least 1, and `expired` a count that is 0 exactly
   if no handle and no thread owns the target.
   */
  lemma ObservesOwners(h: History, t: Tid)
    requires Legal(h) && Observed(Last(h), t).Some?
    ensures var s, op := Last(h), Last(h).ops[t]; var n := Observed(s, t).value;
      && n == |StrongHolders(s.handles, op.b)| + |Doing(s.ops, Retained, op.b)|
      && (op.at.UseLoad? ==> n >= 1)
  {
    hide TallyOf, StrongHolders, WeakHolders, Doing, Legal, Last, Inv;
    ReachableInv(h);
    var s := Last(h);
    Protected(s, t);
    Witness(s, t);
    TallyStrong(s, s.ops[t].b);
  }

  // ----- Calls of one step

  /** Default construction, moves and swaps are possible whenever nobody uses the handles, and only touch these. */
  lemma LocalCalls(s: State, t: Tid, src: Handle, dst: Handle, other: Handle)
    requires !s.ub && !s.terminated && t !in s.ops
    requires Free(s, src) && Free(s, other) && SameKind(src, dst) && SameKind(src, other) && dst !in s.handles
    ensures Enabled(s, t, Default(dst)) && Apply(s, t, Default(dst)) == s.(handles := s.handles[dst := Null])
    ensures Enabled(s, t, Move(src, dst))
    ensures Apply(s, t, Move(src, dst)) == s.(handles := s.handles[dst := s.handles[src]][src := Null])
    ensures Enabled(s, t, Swap(src, other))
    ensures var m := Apply(s, t, Swap(src, other)).handles;
      && Apply(s, t, Swap(src, other)) == s.(handles := m) && m.Keys == s.handles.Keys
      && m[src] == s.handles[other] && m[other] == s.handles[src]
      && forall k | k in m && k != src && k != other :: m[k] == s.handles[k]
  {
  }

  /** A call on an empty handle ends at once; a handle can be moved to an empty one, and an empty one can end. */
  lemma EmptyCalls(s: State, t: Tid, src: Handle, dst: Handle)
    requires !s.ub && !s.terminated && t !in s.ops && HasCell(s.handles, src, Null) && dst !in s.handles
    ensures src.Strong? || dst.Weak? ==>
              Enabled(s, t, Copy(src, dst)) && Apply(s, t, Copy(src, dst)) == s.(handles := s.handles[dst := Null])
    ensures src.Weak? && dst.Strong? ==>
              Enabled(s, t, Lock(src, dst)) && Apply(s, t, Lock(src, dst)) == s.(handles := s.handles[dst := Null])
    ensures src.Strong? ==> Enabled(s, t, UseCount(src)) && Apply(s, t, UseCount(src)) == s
    ensures src.Weak? ==> Enabled(s, t, Expired(src)) && Apply(s, t, Expired(src)) == s
    ensures Free(s, src) ==>
              && Enabled(s, t, Reset(src)) && Apply(s, t, Reset(src)) == s
              && Enabled(s, t, End(src)) && Apply(s, t, End(src)) == s.(handles := s.handles - {src})
    ensures forall k | Free(s, src) && Free(s, k) && k != src && SameKind(k, src) ::
              && Enabled(s, t, Move(k, src))
              && Apply(s, t, Move(k, src)) == s.(handles := s.handles[src := s.handles[k]][k := Null])
  {
  }
}
