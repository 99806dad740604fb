/** What holds in every run of the reference counting machine, for any number of threads and handles. */
module RefCountRuns {
  import opened Core
  import opened RefCountMachine
  import opened RefCountInvariant
  import opened RefCountSteps
  import opened RefCountRefinement
  import Spec = RefCountSpec

  /** A run: the steps made so far, the latest outermost. */
  datatype History = Start | More(prev: History, t: Tid, a: Action)

  /**
   The history is a run in which no `lock` takes the strong references to a block beyond a `size_t`.
   `Last` is its final state.
   */
  ghost predicate Legal(h: History) {
    match h
    case Start => true
    case More(p, t, a) => Legal(p) && Enabled(Last(p), t, a) && (Locks(Last(p), t, a) ==> Bounded(Last(h)))
  }

  ghost function Last(h: History): State {
    match h
    case Start => Init
    case More(p, t, a) => if Enabled(Last(p), t, a) then Apply(Last(p), t, a) else Last(p)
  }

  /** The run `k` continues the run `h`. */
  ghost predicate Continues(h: History, k: History) {
    k == h || (k.More? && Continues(h, k.prev))
  }

  lemma {:induction false} ReachableInv(h: History)
    requires Legal(h)
    ensures Inv(Last(h))
  {
    hide Inv, Bounded, Apply, Enabled;
    match h
    case Start => InitInv();
    case More(p, t, a) => ReachableInv(p); StepKeepsInv(Last(p), t, a);
  }

  lemma InitInv()
    ensures Inv(Init)
  {
  }

  /** Then the bound holds in every state: the loop of `increment_ref_count` terminates the program first. */
  lemma AlwaysBounded(h: History)
    requires Legal(h)
    ensures Bounded(Last(h))
  {
    hide Legal, Last;
    ReachableInv(h);
    InvIsBounded(Last(h));
  }

  // ----- Safety

  /** No run reads or writes a freed control block, or dereferences or deletes a destroyed target. */
  lemma NoUseAfterFree(h: History)
    requires Legal(h)
    ensures !Last(h).ub
  {
    hide Legal, Last;
    ReachableInv(h);
    InvNoUb(Last(h));
  }

  /** The invariant of one block, spelled out. */
  lemma BlockInv(h: History, b: BlockId)
    requires Legal(h) && b in Last(h).blocks
    ensures BlockOK(Last(h).blocks[b], b, TallyOf(Last(h), b))
  {
    hide TallyOf, BlockOK, Legal, Last;
    ReachableInv(h);
  }

  /**
   The counters count: handles whose retain is complete, references in flight, and the implicit weak
   reference exactly until the base destructor gives it up. The strong equation ends with the weak
   count, when nothing but the `delete` of the block is left to do.
   */
  lemma CountersCountReferences(h: History, b: BlockId)
    requires Legal(h) && b in Last(h).blocks
    ensures var s := Last(h); var block := s.blocks[b];
      && (block.weak > 0 ==>
            block.strong == |StrongHolders(s.handles, b)| + |Doing(s.ops, Retained, b)| + |Doing(s.ops, Initial, b)|)
      && block.weak == |WeakHolders(s.handles, b)| + |Doing(s.ops, WeakOwed, b)| + One(block.life != Gone)
  {
    hide Legal, Last, Doing, StrongHolders, WeakHolders;
    BlockInv(h, b);
  }

  /** A strong handle keeps its target usable and reachable through the block. */
  lemma HandleKeepsTargetAlive(h: History, k: Handle)
    requires Legal(h) && k in Last(h).handles && k.Strong? && Last(h).handles[k].Counted?
    ensures var s, b := Last(h), Last(h).handles[k].b;
      && TargetUsable(s, b) && BlockUsable(s, b) && s.blocks[b].target == Some(b) && s.blocks[b].strong > 0
  {
    hide TallyOf, StrongHolders, WeakHolders, Doing, Legal, Last;
    ReachableInv(h);
    var s, b := Last(h), Last(h).handles[k].b;
    BlockKnown(s, k);
    StrongPut(s.handles, k, Null, b);
    TallyStrong(s, b);
  }

  // ----- Destruction happens once

  /** Whether the constructor of the target of `b` has completed in the run. */
  ghost predicate Constructed(h: History, b: BlockId) {
    h.More? && (Constructed(h.prev, b)
                || (Enabled(Last(h.prev), h.t, h.a) && EventOf(Last(h.prev), h.t, h.a).Publish?
                    && EventOf(Last(h.prev), h.t, h.a).b == b))
  }

  /** How the life of a target and the count of its deletions record the completed construction. */
  predicate Complete(s: State, b: BlockId) { b in s.blocks && (s.blocks[b].life == Alive || s.blocks[b].deletes > 0) }

  lemma CompleteStep(s: State, t: Tid, a: Action, b: BlockId)
    requires Inv(s) && Enabled(s, t, a)
    ensures Complete(Apply(s, t, a), b)
       <==> Complete(s, b) || (EventOf(s, t, a).Publish? && EventOf(s, t, a).b == b)
  {
    hide TallyOf, StrongHolders, WeakHolders, Doing, Inv, Continue, ResumeEvent;
    if a.Resume? { CompleteResume(s, t, a.spurious, a.throws, b); }
  }

  lemma CompleteResume(s: State, t: Tid, spurious: bool, throws: bool, b: BlockId)
    requires Inv(s) && t in s.ops
    ensures var e := ResumeEvent(s, s.ops[t], t, spurious, throws);
      Complete(Continue(s, t, spurious, throws), b) <==> Complete(s, b) || (e.Publish? && e.b == b)
  {
    hide TallyOf, StrongHolders, WeakHolders, Doing, Inv, BlockOK;
    Protected(s, t);
    var at := s.ops[t].at;
    if at.Construct? {
      PendingIncomplete(s, t);
    } else if !at.RelDelete? && !at.BaseDtor? && !at.UnwindDtor? {
      hide Continue;
      LifeUntouched(s, t, spurious, throws, b);
    }
  }

  /** Only constructors and destructors change the life of a target. */
  lemma LifeUntouched(s: State, t: Tid, spurious: bool, throws: bool, b: BlockId)
    requires Inv(s) && t in s.ops
    requires var at := s.ops[t].at; !at.Construct? && !at.RelDelete? && !at.BaseDtor? && !at.UnwindDtor?
    ensures Complete(Continue(s, t, spurious, throws), b) == Complete(s, b)
  {
    hide TallyOf, StrongHolders, WeakHolders, Doing, Inv, BlockOK, HandlesOK, Inc, Dec;
    Protected(s, t);
  }

  lemma PendingIncomplete(s: State, t: Tid)
    requires Inv(s) && t in s.ops && s.ops[t].at.Construct?
    ensures s.ops[t].b in s.blocks && !Complete(s, s.ops[t].b)
  {
    hide TallyOf, Inv;
    Protected(s, t);
  }

  lemma BlockInvOf(s: State, b: BlockId)
    requires Inv(s) && b in s.blocks
    ensures BlockOK(s.blocks[b], b, TallyOf(s, b))
  {
  }

  lemma {:induction false} ConstructedIsComplete(h: History, b: BlockId)
    requires Legal(h)
    ensures Constructed(h, b) <==> Complete(Last(h), b)
  {
    hide Inv, Bounded, Apply, Enabled, EventOf;
    match h
    case Start =>
    case More(p, t, a) =>
      ConstructedIsComplete(p, b);
      ReachableInv(p);
      CompleteStep(Last(p), t, a, b);
  }

  /** The target is deleted at most once, the block is freed at most once, and only after the base destructor. */
  lemma DestroyedAtMostOnce(h: History, b: BlockId)
    requires Legal(h) && b in Last(h).blocks
    ensures var block := Last(h).blocks[b];
      && block.deletes <= 1 && block.frees <= 1
      && (block.deletes == 1 ==> Constructed(h, b))
      && (block.frees == 1 ==> block.life == Gone)
  {
    hide TallyOf, Legal, Last, Constructed;
    BlockInv(h, b);
    ConstructedIsComplete(h, b);
  }

  /**
   At most one thread constructs a target, at most one has seen the last strong reference go and takes
   the target apart, and at most one frees the block.
   */
  lemma OneDisposer(h: History, b: BlockId, r: Role, t: Tid, u: Tid)
    requires Legal(h) && b in Last(h).blocks && (r == Initial || r == Implicit || r == Freeing)
    requires Does(Last(h).ops, t, r, b) && Does(Last(h).ops, u, r, b)
    ensures t == u
  {
    hide Legal, Last, Doing, StrongHolders, WeakHolders;
    BlockInv(h, b);
    Sole(Last(h), t, r, b);
  }

  /**
   When no handle and no operation in progress refers to a block, its target has been deleted exactly
   once if its constructor completed, and not at all if the constructor threw, and the block has been
   freed exactly once. After a throwing constructor the strong count was 1 when the block was freed.
   */
  lemma NothingLeaks(h: History, b: BlockId)
    requires Legal(h) && b in Last(h).blocks
    requires forall k | k in Last(h).handles :: Last(h).handles[k] != Counted(b)
    requires forall t | t in Last(h).ops :: Last(h).ops[t].b != b
    ensures var block := Last(h).blocks[b];
      && block.frees == 1
      && block.deletes == One(Constructed(h, b))
      && block.strong == One(!Constructed(h, b))
  {
    hide Legal, Last, Constructed;
    var s := Last(h);
    BlockInv(h, b);
    ConstructedIsComplete(h, b);
    assert StrongHolders(s.handles, b) == {} && WeakHolders(s.handles, b) == {};
    NobodyDoing(s, Retained, b); NobodyDoing(s, Initial, b); NobodyDoing(s, WeakOwed, b);
    NobodyDoing(s, Implicit, b); NobodyDoing(s, Freeing, b);
  }

  // ----- Zero strong references

  lemma ZeroStep(s: State, t: Tid, a: Action, b: BlockId)
    requires Inv(s) && Enabled(s, t, a) && b in s.blocks && s.blocks[b].strong == 0
    ensures b in Apply(s, t, a).blocks && Apply(s, t, a).blocks[b].strong == 0
    ensures EventOf(s, t, a).LockHit? ==> EventOf(s, t, a).b != b
  {
    hide TallyOf, StrongHolders, WeakHolders, Doing, Inv, BlockOK;
    if t in s.ops { Protected(s, t); }
  }

  /** A strong count of 0, which is what `expired` tests for, stays that way: no later `lock` gets a reference. */
  lemma {:induction false} ExpiredForever(h: History, k: History, b: BlockId)
    requires Continues(h, k) && Legal(k) && b in Last(h).blocks && Last(h).blocks[b].strong == 0
    ensures b in Last(k).blocks && Last(k).blocks[b].strong == 0
    ensures forall t, a | Enabled(Last(k), t, a) && EventOf(Last(k), t, a).LockHit? :: EventOf(Last(k), t, a).b != b
  {
    hide Inv, Bounded, Apply, Enabled, EventOf;
    if k != h {
      ExpiredForever(h, k.prev, b);
      ReachableInv(k.prev);
      ZeroStep(Last(k.prev), k.t, k.a, b);
    }
    ReachableInv(k);
    forall t, a | Enabled(Last(k), t, a) && EventOf(Last(k), t, a).LockHit? ensures EventOf(Last(k), t, a).b != b {
      ZeroStep(Last(k), t, a, b);
    }
  }

  /**
   How a step of `lock` can end the call: with a counted handle on a usable target, or with an empty
   handle at a moment when the strong count is 0.
   */
  lemma LockOutcome(h: History, t: Tid, spurious: bool, throws: bool)
    requires Legal(h) && t in Last(h).ops
    requires Last(h).ops[t].at.LockLoad? || Last(h).ops[t].at.LockCas? || Last(h).ops[t].at.LockTarget?
    ensures var s := Last(h); var op := s.ops[t]; var s' := Continue(s, t, spurious, throws);
      && op.dst.Some? && op.b in s.blocks && (s'.terminated ==> s.terminated)
      && if t in s'.ops then s'.ops[t] == op.(at := s'.ops[t].at)
         else if HasCell(s'.handles, op.dst.value, Counted(op.b)) then
           op.at.LockTarget? && s.blocks[op.b].life == Alive && s.blocks[op.b].strong > 0
         else HasCell(s'.handles, op.dst.value, Null) && s.blocks[op.b].strong == 0
  {
    hide TallyOf, StrongHolders, WeakHolders, Doing, Inv, Legal, Last;
    ReachableInv(h);
    Protected(Last(h), t);
  }

  // ----- The retry loops

  /** The event a step stands for. */
  ghost function StepEvent(h: History, t: Tid, a: Action): Spec.Event {
    if Enabled(Last(h), t, a) then EventOf(Last(h), t, a) else Spec.Silent
  }

  /** The events of `t` since the run `h`, without the silent ones. */
  ghost function EventsBy(t: Tid, h: History, k: History): seq<Spec.Event> {
    if k == h || k.Start? then []
    else
      var e := StepEvent(k.prev, k.t, k.a);
      EventsBy(t, h, k.prev) + if k.t == t && !e.Silent? then [e] else []
  }

  /** The run `h` ends with the first step of a call of `t`; `k` continues it at most to the last step of the call. */
  ghost predicate During(t: Tid, h: History, k: History) {
    k == h || (k.More? && During(t, h, k.prev) && t in Last(k.prev).ops)
  }

  predicate Copying(at: Point) {
    at.CopyDeref? || at.CopyLoad? || at.CopyCas? || at.WeakDeref? || at.WeakLoad? || at.WeakCas?
  }

  predicate Locking(at: Point) { at.LockLoad? || at.LockCas? || at.LockTarget? }

  /** The operation of `t` is the same in both states. */
  predicate SameOp(s: State, s': State, t: Tid) {
    (t in s'.ops <==> t in s.ops) && (t in s.ops ==> s'.ops[t] == s.ops[t])
  }

  lemma CopyKeepsOthers(s: State, u: Tid, spurious: bool, throws: bool, t: Tid)
    requires u in s.ops && u != t && Copying(s.ops[u].at)
    ensures SameOp(s, Continue(s, u, spurious, throws), t)
  {
    hide Inc;
  }

  lemma LockKeepsOthers(s: State, u: Tid, spurious: bool, throws: bool, t: Tid)
    requires u in s.ops && u != t && Locking(s.ops[u].at)
    ensures SameOp(s, Continue(s, u, spurious, throws), t)
  {
    hide Inc;
  }

  predicate Releasing(at: Point) { at.RelDeref? || at.RelSub? || at.RelExchange? || at.RelDelete? }

  lemma ReleaseKeepsOthers(s: State, u: Tid, spurious: bool, throws: bool, t: Tid)
    requires u in s.ops && u != t && Releasing(s.ops[u].at)
    ensures SameOp(s, Continue(s, u, spurious, throws), t)
  {
    hide Dec;
  }

  predicate Disposing(at: Point) { at.WeakSub? || at.BaseDtor? || at.UnwindDtor? || at.FreeBlock? }

  lemma DisposeKeepsOthers(s: State, u: Tid, spurious: bool, throws: bool, t: Tid)
    requires u in s.ops && u != t && Disposing(s.ops[u].at)
    ensures SameOp(s, Continue(s, u, spurious, throws), t)
  {
    hide Dec;
  }

  lemma RestKeepsOthers(s: State, u: Tid, spurious: bool, throws: bool, t: Tid)
    requires u in s.ops && u != t
    requires var at := s.ops[u].at; at.Construct? || at.UseDeref? || at.UseLoad? || at.ExpiredLoad?
    ensures SameOp(s, Continue(s, u, spurious, throws), t)
  {
  }

  lemma ResumeKeepsOthers(s: State, u: Tid, spurious: bool, throws: bool, t: Tid)
    requires u in s.ops && u != t
    ensures SameOp(s, Continue(s, u, spurious, throws), t)
  {
    hide Continue, SameOp;
    if Copying(s.ops[u].at) {
      CopyKeepsOthers(s, u, spurious, throws, t);
    } else if Locking(s.ops[u].at) {
      LockKeepsOthers(s, u, spurious, throws, t);
    } else if Releasing(s.ops[u].at) {
      ReleaseKeepsOthers(s, u, spurious, throws, t);
    } else if Disposing(s.ops[u].at) {
      DisposeKeepsOthers(s, u, spurious, throws, t);
    } else {
      RestKeepsOthers(s, u, spurious, throws, t);
    }
  }

  /** Only the thread itself advances its operation. */
  lemma OthersKeepOp(h: History, u: Tid, a: Action, t: Tid)
    requires Legal(More(h, u, a)) && u != t
    ensures var s, s' := Last(h), Last(More(h, u, a));
      (t in s'.ops <==> t in s.ops) && (t in s.ops ==> s'.ops[t] == s.ops[t])
  {
    hide Bounded, Continue;
    if a.Resume? { ResumeKeepsOthers(Last(h), u, a.spurious, a.throws, t); }
  }

  /** A thread in an operation resumes it. */
  lemma OwnStep(h: History, t: Tid, a: Action)
    requires Legal(More(h, t, a)) && t in Last(h).ops
    ensures a.Resume? && Last(More(h, t, a)) == Continue(Last(h), t, a.spurious, a.throws)
    ensures StepEvent(h, t, a) == ResumeEvent(Last(h), Last(h).ops[t], t, a.spurious, a.throws)
  {
    hide Bounded, Continue, ResumeEvent;
  }

  /** The first step of a copy, or of a `lock`, of a handle on `b`. */
  lemma FirstStep(h: History, t: Tid, a: Action, b: BlockId)
    requires Legal(More(h, t, a)) && (a.Copy? || a.Lock?) && HasCell(Last(h).handles, a.src, Counted(b))
    ensures StepEvent(h, t, a) == Spec.Silent && t in Last(More(h, t, a)).ops
    ensures var op := Last(More(h, t, a)).ops[t];
      op == Op(op.at, Some(a.src), Some(a.dst), b) && if a.Copy? then Copying(op.at) else op.at.LockLoad?
  {
    hide Bounded, Continue;
  }

  function Steps(h: History): nat { if h.Start? then 0 else 1 + Steps(h.prev) }

  lemma {:induction false} Longer(t: Tid, h: History, k: History)
    requires During(t, h, k)
    ensures Steps(k) >= Steps(h)
  {
    if k != h { Longer(t, h, k.prev); }
  }

  /** Every step of a copy but the last is silent and stays in the copy; the last adds exactly the new handle. */
  lemma CopyStep(s: State, t: Tid, spurious: bool, throws: bool)
    requires Inv(s) && t in s.ops && Copying(s.ops[t].at)
    ensures var op := s.ops[t]; var s' := Continue(s, t, spurious, throws);
      var e := ResumeEvent(s, op, t, spurious, throws);
      && op.src.Some? && op.dst.Some?
      && if t in s'.ops then e.Silent? && s'.ops[t] == op.(at := s'.ops[t].at) && Copying(s'.ops[t].at)
         else e == Spec.Retain(op.b, op.src.value, op.dst.value) && HasCell(s'.handles, op.dst.value, Counted(op.b))
  {
    hide TallyOf, StrongHolders, WeakHolders, Doing, Inv, BlockOK;
    Protected(s, t);
  }

  /**
   Copying a handle is one indivisible "+1": from the step that starts the call to the one that ends
   it, whatever the other threads do, the only event of the thread is the retain of the new handle.
   */
  lemma {:induction false} CopyIsOneEvent(h: History, t: Tid, src: Handle, dst: Handle, b: BlockId, k: History)
    requires Legal(k) && During(t, More(h, t, Copy(src, dst)), k) && HasCell(Last(h).handles, src, Counted(b))
    ensures var s := Last(k);
      if t in s.ops then
        EventsBy(t, h, k) == [] && Copying(s.ops[t].at) && s.ops[t] == Op(s.ops[t].at, Some(src), Some(dst), b)
      else
        EventsBy(t, h, k) == [Spec.Retain(b, src, dst)] && HasCell(s.handles, dst, Counted(b))
  {
    hide Last, StepEvent, Inv, Continue, ResumeEvent, Enabled, Bounded, Locks, Copying, HasCell;
    Longer(t, More(h, t, Copy(src, dst)), k);
    if k == More(h, t, Copy(src, dst)) {
      FirstStep(h, t, k.a, b);
    } else {
      CopyIsOneEvent(h, t, src, dst, b, k.prev);
      ReachableInv(k.prev);
      assert k == More(k.prev, k.t, k.a);
      if k.t == t {
        OwnStep(k.prev, t, k.a);
        CopyStep(Last(k.prev), t, k.a.spurious, k.a.throws);
      } else {
        OthersKeepOp(k.prev, k.t, k.a, t);
      }
    }
  }

  /** The steps of `lock` before the decision are silent; it is a miss, or a hit that is then given to the handle. */
  lemma LockStep(s: State, t: Tid, spurious: bool, throws: bool)
    requires Inv(s) && t in s.ops && Locking(s.ops[t].at)
    ensures var op := s.ops[t]; var s' := Continue(s, t, spurious, throws);
      var e := ResumeEvent(s, op, t, spurious, throws);
      && op.src.Some? && op.dst.Some?
      && if t in s'.ops then
           !op.at.LockTarget? && Locking(s'.ops[t].at) && s'.ops[t] == op.(at := s'.ops[t].at)
           && e == if s'.ops[t].at.LockTarget? then Spec.LockHit(op.b, op.src.value, t) else Spec.Silent
         else if op.at.LockTarget? then
           e == Spec.Give(op.b, t, op.dst.value) && HasCell(s'.handles, op.dst.value, Counted(op.b))
         else
           e == Spec.LockMiss(op.b, op.src.value) && HasCell(s'.handles, op.dst.value, Null)
  {
    hide TallyOf, StrongHolders, WeakHolders, Doing, Inv, BlockOK;
    Protected(s, t);
    if s.ops[t].at.LockTarget? { LockedTarget(s, t); }
  }

  /** After a hit the block still names its target. */
  lemma LockedTarget(s: State, t: Tid)
    requires Inv(s) && t in s.ops && s.ops[t].at.LockTarget?
    ensures s.ops[t].b in s.blocks && s.blocks[s.ops[t].b].target == Some(s.ops[t].b)
  {
    hide StrongHolders, WeakHolders, Inv;
    Protected(s, t);
    Witness(s, t);
    BlockInvOf(s, s.ops[t].b);
  }

  /**
   `lock` is one indivisible "add an owner if there is one, else fail": over the whole call the events
   of the thread are one miss, or one hit whose reference is then given to the new handle.
   */
  lemma {:induction false} LockIsOneEvent(h: History, t: Tid, src: Handle, dst: Handle, b: BlockId, k: History)
    requires Legal(k) && During(t, More(h, t, Lock(src, dst)), k) && HasCell(Last(h).handles, src, Counted(b))
    ensures var s, events := Last(k), EventsBy(t, h, k);
      if t in s.ops then
        && Locking(s.ops[t].at) && s.ops[t] == Op(s.ops[t].at, Some(src), Some(dst), b)
        && events == if s.ops[t].at.LockTarget? then [Spec.LockHit(b, src, t)] else []
      else
        || (events == [Spec.LockMiss(b, src)] && HasCell(s.handles, dst, Null))
        || (events == [Spec.LockHit(b, src, t), Spec.Give(b, t, dst)] && HasCell(s.handles, dst, Counted(b)))
  {
    hide Last, StepEvent, Inv, Continue, ResumeEvent, Enabled, Bounded, Locks, HasCell;
    Longer(t, More(h, t, Lock(src, dst)), k);
    if k == More(h, t, Lock(src, dst)) {
      FirstStep(h, t, k.a, b);
    } else {
      LockIsOneEvent(h, t, src, dst, b, k.prev);
      ReachableInv(k.prev);
      assert k == More(k.prev, k.t, k.a);
      if k.t == t {
        OwnStep(k.prev, t, k.a);
        LockStep(Last(k.prev), t, k.a.spurious, k.a.throws);
      } else {
        OthersKeepOp(k.prev, k.t, k.a, t);
      }
    }
  }

  /** `t` makes no step between the two runs. */
  ghost predicate Pauses(t: Tid, h: History, k: History) {
    k == h || (k.More? && k.t != t && Pauses(t, h, k.prev))
  }

  /** One of the two counters of a block. */
  datatype Counter = StrongCount | WeakCount

  function ValueOf(s: State, b: BlockId, c: Counter): Option<nat> {
    if b !in s.blocks then None else Some(if c.StrongCount? then s.blocks[b].strong else s.blocks[b].weak)
  }

  /** Between the two runs another thread than `t` changes the counter `c` of `b`. */
  ghost predicate OtherWrites(t: Tid, h: History, k: History, b: BlockId, c: Counter) {
    k != h && k.More?
    && (OtherWrites(t, h, k.prev, b, c) || (k.t != t && ValueOf(Last(k.prev), b, c) != ValueOf(Last(k), b, c)))
  }

  lemma {:induction false} ChangedByOther(t: Tid, h: History, k: History, b: BlockId, c: Counter)
    requires Pauses(t, h, k) && ValueOf(Last(h), b, c) != ValueOf(Last(k), b, c)
    ensures OtherWrites(t, h, k, b, c)
  {
    hide Last;
    if ValueOf(Last(h), b, c) != ValueOf(Last(k.prev), b, c) { ChangedByOther(t, h, k.prev, b, c); }
  }

  /** The counter a compare-and-swap works on, and the count it expects. */
  function Expects(at: Point): Option<(Counter, nat)> {
    match at
    case CopyCas(seen) => Some((StrongCount, seen))
    case WeakCas(seen) => Some((WeakCount, seen))
    case LockCas(seen) => Some((StrongCount, seen))
    case _ => None
  }

  predicate AtCas(s: State, t: Tid) { t in s.ops && Expects(s.ops[t].at).Some? }

  /** The operation of `t` is a compare-and-swap, and its counter has the expected value. */
  predicate UpToDate(s: State, t: Tid) {
    AtCas(s, t) && ValueOf(s, s.ops[t].b, Expects(s.ops[t].at).value.0) == Some(Expects(s.ops[t].at).value.1)
  }

  /** A compare-and-swap changes its counter exactly if the counter is as expected and it does not fail spuriously. */
  lemma CasSucceedsIff(h: History, t: Tid, throws: bool)
    requires Legal(h) && AtCas(Last(h), t) && !Continue(Last(h), t, false, throws).terminated
    ensures var s, op := Last(h), Last(h).ops[t]; var c := Expects(op.at).value.0;
      && (UpToDate(s, t) <==> ValueOf(Continue(s, t, false, throws), op.b, c) != ValueOf(s, op.b, c))
      && ValueOf(Continue(s, t, true, throws), op.b, c) == ValueOf(s, op.b, c)
  {
    hide TallyOf, StrongHolders, WeakHolders, Doing, Inv, Legal, Last, BlockOK;
    ReachableInv(h);
    Protected(Last(h), t);
  }

  /** Every step that arrives at a compare-and-swap, or stays there, has just read the counter. */
  lemma CasReadsFirst(h: History, t: Tid, a: Action)
    requires Legal(More(h, t, a)) && AtCas(Last(More(h, t, a)), t) && !Last(More(h, t, a)).terminated
    ensures UpToDate(Last(More(h, t, a)), t)
  {
    hide Inv, Bounded, Continue;
    ReachableInv(h);
    if a.Resume? { ResumeReads(Last(h), t, a.spurious, a.throws); }
  }

  lemma ResumeReads(s: State, t: Tid, spurious: bool, throws: bool)
    requires Inv(s) && t in s.ops
    ensures var s' := Continue(s, t, spurious, throws); AtCas(s', t) && !s'.terminated ==> UpToDate(s', t)
  {
    hide TallyOf, StrongHolders, WeakHolders, Doing, Inv, BlockOK;
    Protected(s, t);
  }

  /** A thread at a compare-and-swap has made a last step, in which it read the expected count. */
  lemma {:induction false} LastRead(t: Tid, k: History) returns (h: History)
    requires Legal(k) && !Last(k).terminated && AtCas(Last(k), t)
    ensures h.More? && h.t == t && Continues(h, k) && Pauses(t, h, k)
    ensures UpToDate(Last(h), t) && Last(h).ops[t] == Last(k).ops[t]
  {
    hide Apply, Bounded, Expects;
    if k.t == t {
      h := k;
      CasReadsFirst(k.prev, t, k.a);
    } else {
      OthersKeepOp(k.prev, k.t, k.a, t);
      h := LastRead(t, k.prev);
    }
  }

  /**
   Whenever a compare-and-swap is about to fail without being spurious, another thread has written its
   counter since the step in which the thread read the count it expects.
   */
  lemma CasFailureExplained(t: Tid, k: History) returns (h: History)
    requires Legal(k) && !Last(k).terminated && AtCas(Last(k), t) && !UpToDate(Last(k), t)
    ensures h.More? && h.t == t && Continues(h, k) && Pauses(t, h, k)
    ensures UpToDate(Last(h), t) && Last(h).ops[t] == Last(k).ops[t]
    ensures OtherWrites(t, h, k, Last(k).ops[t].b, Expects(Last(k).ops[t].at).value.0)
  {
    h := LastRead(t, k);
    ChangedByOther(t, h, k, Last(k).ops[t].b, Expects(Last(k).ops[t].at).value.0);
  }

  // ----- Refinement over whole runs

  /** The run as the specification sees it: the event of every step, and the owners after it. */
  ghost function Image(h: History): Spec.Trace {
    match h
    case Start => Spec.Initially
    case More(p, t, a) =>
      Spec.Then(Image(p), StepEvent(p, t, a), Abs(Last(h)))
  }

  /** Every run of the machine is a run of the owner-set specification. */
  lemma {:induction false} RunRefines(h: History)
    requires Legal(h)
    ensures Spec.Follows(Image(h)) && Spec.Final(Image(h)) == Abs(Last(h))
  {
    hide Inv, Bounded, Apply, Enabled, EventOf, Abs, Spec.Happens;
    match h
    case Start => EmptyAbs();
    case More(p, t, a) =>
      RunRefines(p);
      ReachableInv(p);
      StepRefines(Last(p), t, a);
  }

  lemma EmptyAbs()
    ensures Abs(Init) == map[]
  {
  }

  // ----- The bound on strong references

  /** The compare-and-swap of `lock` keeps the invariant exactly if the count can still grow. */
  lemma LockNeedsRoom(s: State, t: Tid)
    requires Inv(s) && t in s.ops && s.ops[t].at.LockCas?
    requires s.ops[t].b in s.blocks && s.ops[t].at.seen == s.blocks[s.ops[t].b].strong
    ensures Inv(Continue(s, t, false, false)) <==> s.blocks[s.ops[t].b].strong < SIZE_MAX
  {
    hide TallyOf, StrongHolders, WeakHolders, Doing, Inv;
    var s' := Continue(s, t, false, false);
    Protected(s, t);
    LockAlive(s, t);
    if s.blocks[s.ops[t].b].strong < SIZE_MAX {
      KeepLockCas(s, t);
    } else if Inv(s') {
      Witness(s', t);
      BlockInvOf(s', s.ops[t].b);
    }
  }

  /** `n` strong handles on block 0. */
  function Many(n: nat): map<Handle, Cell> { map i: nat | i < n :: Strong(i) := Counted(0) }

  lemma {:induction false} ManyHolders(n: nat)
    ensures |StrongHolders(Many(n), 0)| == n && WeakHolders(Many(n), 0) == {}
    ensures Strong(n) !in Many(n) && Weak(0) !in Many(n)
  {
    if n == 0 {
      assert StrongHolders(Many(0), 0) == {};
    } else {
      ManyHolders(n - 1);
      assert Many(n) == Many(n - 1)[Strong(n - 1) := Counted(0)];
      StrongPut(Many(n - 1), Strong(n - 1), Counted(0), 0);
      WeakPut(Many(n - 1), Strong(n - 1), Counted(0), 0);
    }
  }

  /** `n` strong handles, one weak handle, and a thread about to lock the weak handle. */
  function Crowded(n: nat): State {
    State(map[0 := Block(n, 2, Some(0), Alive, 0, 0)],
          Many(n)[Weak(0) := Counted(0)][Strong(n) := Building(0)],
          map[0 := Op(LockCas(n), Some(Weak(0)), Some(Strong(n)), 0)],
          false, false)
  }

  lemma CrowdedHandles(n: nat)
    ensures |StrongHolders(Crowded(n).handles, 0)| == n && |WeakHolders(Crowded(n).handles, 0)| == 1
  {
    hide StrongHolders, WeakHolders, Many;
    var m := Many(n);
    ManyHolders(n);
    StrongPut(m, Weak(0), Counted(0), 0);
    WeakPut(m, Weak(0), Counted(0), 0);
    StrongPut(m[Weak(0) := Counted(0)], Strong(n), Building(0), 0);
    WeakPut(m[Weak(0) := Counted(0)], Strong(n), Building(0), 0);
  }

  lemma CrowdedTally(n: nat)
    ensures TallyOf(Crowded(n), 0) == Tally(n, 0, 0, 1, 0, 0, 0)
  {
    hide StrongHolders, WeakHolders, Doing, Many;
    CrowdedHandles(n);
    var ops := Crowded(n).ops;
    NoneInRole(ops, 0, Retained, 0);
    NoneInRole(ops, 0, Initial, 0);
    NoneInRole(ops, 0, WeakOwed, 0);
    NoneInRole(ops, 0, Implicit, 0);
    NoneInRole(ops, 0, Freeing, 0);
  }

  lemma NoneInRole(ops: map<Tid, Op>, t: Tid, r: Role, b: BlockId)
    requires ops.Keys == {t} && !InRole(ops[t].at, r)
    ensures Doing(ops, r, b) == {}
  {
  }

  lemma CrowdedInv(n: nat)
    requires 0 < n <= SIZE_MAX
    ensures Inv(Crowded(n))
  {
    hide TallyOf;
    CrowdedTally(n);
  }

  // ----- A run

  lemma Extend(h: History, t: Tid, a: Action, s': State)
    requires Legal(h) && Enabled(Last(h), t, a) && !Locks(Last(h), t, a) && Apply(Last(h), t, a) == s'
    ensures Legal(More(h, t, a)) && Last(More(h, t, a)) == s'
  {
  }

  /** Any thread can make a target, reset its only handle, and so delete the target and free its block. */
  lemma OneLife(t: Tid, dst: Handle, b: BlockId) returns (h: History)
    requires dst.Strong?
    ensures Legal(h) && Constructed(h, b)
    ensures Last(h) == State(map[b := Block(0, 0, None, Gone, 1, 1)], map[dst := Null], map[], false, false)
  {
    hide Legal, Last, Bounded, Constructed;
    h := Living(t, dst, b);
    h := LastRelease(t, dst, b, h);
    h := Disposal(t, dst, b, h);
    h := Reclaiming(t, dst, b, h);
    ConstructedIsComplete(h, b);
  }

  lemma Living(t: Tid, dst: Handle, b: BlockId) returns (h: History)
    requires dst.Strong?
    ensures Legal(h)
    ensures Last(h) == State(map[b := Block(1, 1, Some(b), Alive, 0, 0)], map[dst := Counted(b)], map[], false, false)
  {
    hide Bounded;
    var s1 := State(map[b := Block(1, 1, Some(b), Constructing, 0, 0)], map[dst := Building(t)],
                    map[t := Op(Construct, None, Some(dst), b)], false, false);
    Extend(Start, t, Make(dst, b), s1);
    h := More(Start, t, Make(dst, b));
    hide Legal, Last;
    var s2 := State(map[b := Block(1, 1, Some(b), Alive, 0, 0)], map[dst := Counted(b)], map[], false, false);
    Extend(h, t, Resume(false, false), s2);
    h := More(h, t, Resume(false, false));
  }

  lemma LastRelease(t: Tid, dst: Handle, b: BlockId, start: History) returns (h: History)
    requires dst.Strong? && Legal(start)
    requires Last(start)
          == State(map[b := Block(1, 1, Some(b), Alive, 0, 0)], map[dst := Counted(b)], map[], false, false)
    ensures Legal(h) && Last(h) == At(t, dst, b, Block(0, 1, None, Alive, 0, 0), RelDelete(Some(b)))
  {
    hide Legal, Last, Bounded;
    var next := Resume(false, false);
    h := start;
    Extend(h, t, Reset(dst), At(t, dst, b, Block(1, 1, Some(b), Alive, 0, 0), RelDeref));
    h := More(h, t, Reset(dst));
    Extend(h, t, next, At(t, dst, b, Block(1, 1, Some(b), Alive, 0, 0), RelSub));
    h := More(h, t, next);
    Extend(h, t, next, At(t, dst, b, Block(0, 1, Some(b), Alive, 0, 0), RelExchange));
    h := More(h, t, next);
    Extend(h, t, next, At(t, dst, b, Block(0, 1, None, Alive, 0, 0), RelDelete(Some(b))));
    h := More(h, t, next);
  }

  lemma Disposal(t: Tid, dst: Handle, b: BlockId, start: History) returns (h: History)
    requires dst.Strong? && Legal(start)
    requires Last(start) == At(t, dst, b, Block(0, 1, None, Alive, 0, 0), RelDelete(Some(b)))
    ensures Legal(h) && Last(h) == At(t, dst, b, Block(0, 0, None, Gone, 1, 0), FreeBlock)
  {
    hide Legal, Last, Bounded;
    var next := Resume(false, false);
    h := start;
    Extend(h, t, next, At(t, dst, b, Block(0, 1, None, Dying, 1, 0), BaseDtor));
    h := More(h, t, next);
    Extend(h, t, next, At(t, dst, b, Block(0, 0, None, Gone, 1, 0), FreeBlock));
    h := More(h, t, next);
  }

  lemma Reclaiming(t: Tid, dst: Handle, b: BlockId, start: History) returns (h: History)
    requires dst.Strong? && Legal(start)
    requires Last(start) == At(t, dst, b, Block(0, 0, None, Gone, 1, 0), FreeBlock)
    ensures Legal(h)
    ensures Last(h) == State(map[b := Block(0, 0, None, Gone, 1, 1)], map[dst := Null], map[], false, false)
  {
    hide Legal, Last, Bounded;
    var s' := State(map[b := Block(0, 0, None, Gone, 1, 1)], map[dst := Null], map[], false, false);
    Extend(start, t, Resume(false, false), s');
    h := More(start, t, Resume(false, false));
  }

  function At(t: Tid, dst: Handle, b: BlockId, block: Block, at: Point): State {
    State(map[b := block], map[dst := Null], map[t := Op(at, None, None, b)], false, false)
  }

  // ----- A run to the bound

  /** The state in which block 0 has `n` strong handles, after more changes to the handles. */
  function Calm(n: nat, weak: nat, m: map<Handle, Cell>): State {
    State(map[0 := Block(n, weak, Some(0), Alive, 0, 0)], m, map[], false, false)
  }

  /** The same, with thread 0 in an operation. */
  function Busy(n: nat, weak: nat, m: map<Handle, Cell>, op: Op): State {
    Calm(n, weak, m).(ops := map[0 := op])
  }

  lemma ManyFacts(n: nat)
    requires n >= 1
    ensures HasCell(Many(n), Strong(0), Counted(0)) && Strong(n) !in Many(n) && Weak(0) !in Many(n)
    ensures Many(n)[Strong(n) := Counted(0)] == Many(n + 1)
  {
  }

  lemma CopyOnce(start: History, n: nat) returns (h: History)
    requires 1 <= n < SIZE_MAX && Legal(start) && Last(start) == Calm(n, 1, Many(n))
    ensures Legal(h) && Last(h) == Calm(n + 1, 1, Many(n + 1))
  {
    hide Legal, Last, Bounded, Many;
    ManyFacts(n);
    var next, src, dst := Resume(false, false), Strong(0), Strong(n);
    var m := Many(n)[dst := Uncounted(0, 0)];
    h := start;
    Extend(h, 0, Copy(src, dst), Busy(n, 1, m, Op(CopyDeref, Some(src), Some(dst), 0)));
    h := More(h, 0, Copy(src, dst));
    Extend(h, 0, next, Busy(n, 1, m, Op(CopyLoad, Some(src), Some(dst), 0)));
    h := More(h, 0, next);
    Extend(h, 0, next, Busy(n, 1, m, Op(CopyCas(n), Some(src), Some(dst), 0)));
    h := More(h, 0, next);
    assert m[dst := Counted(0)] == Many(n + 1);
    Extend(h, 0, next, Calm(n + 1, 1, Many(n + 1)));
    h := More(h, 0, next);
  }

  lemma {:induction false} Crowd(n: nat) returns (h: History)
    requires 1 <= n <= SIZE_MAX
    ensures Legal(h) && Last(h) == Calm(n, 1, Many(n))
  {
    hide Legal, Last;
    if n == 1 {
      h := Living(0, Strong(0), 0);
      assert Many(1) == map[Strong(0) := Counted(0)];
    } else {
      h := Crowd(n - 1);
      h := CopyOnce(h, n - 1);
    }
  }

  lemma ShareWeakly(start: History, n: nat) returns (h: History)
    requires 1 <= n <= SIZE_MAX && Legal(start) && Last(start) == Calm(n, 1, Many(n))
    ensures Legal(h) && Last(h) == Calm(n, 2, Many(n)[Weak(0) := Counted(0)])
  {
    hide Legal, Last, Bounded, Many;
    ManyFacts(n);
    var next, src, dst := Resume(false, false), Strong(0), Weak(0);
    var m := Many(n)[dst := Uncounted(0, 0)];
    h := start;
    Extend(h, 0, Copy(src, dst), Busy(n, 1, Many(n)[dst := Building(0)], Op(WeakDeref, Some(src), Some(dst), 0)));
    h := More(h, 0, Copy(src, dst));
    Extend(h, 0, next, Busy(n, 1, m, Op(WeakLoad, Some(src), Some(dst), 0)));
    h := More(h, 0, next);
    Extend(h, 0, next, Busy(n, 1, m, Op(WeakCas(1), Some(src), Some(dst), 0)));
    h := More(h, 0, next);
    Extend(h, 0, next, Calm(n, 2, Many(n)[dst := Counted(0)]));
    h := More(h, 0, next);
  }

  /**
   A run after which `lock` wraps the count around to 0 although SIZE_MAX handles are in use: the
   next step of thread 0 breaks the invariant.
   */
  lemma LockWrapsAround() returns (h: History, s': State)
    ensures Legal(h) && Enabled(Last(h), 0, Resume(false, false)) && s' == Apply(Last(h), 0, Resume(false, false))
    ensures |StrongHolders(Last(h).handles, 0)| == SIZE_MAX
    ensures 0 in s'.blocks && s'.blocks[0].strong == 0 && !Inv(s')
  {
    hide StrongHolders, WeakHolders, Doing, Inv, TallyOf, Legal, Last, Bounded;
    var n :| n == SIZE_MAX;
    h := Crowd(n);
    h := ShareWeakly(h, n);
    var m := Many(n)[Weak(0) := Counted(0)][Strong(n) := Building(0)];
    Extend(h, 0, Lock(Weak(0), Strong(n)), Busy(n, 2, m, Op(LockLoad, Some(Weak(0)), Some(Strong(n)), 0)));
    h := More(h, 0, Lock(Weak(0), Strong(n)));
    Extend(h, 0, Resume(false, false), Crowded(n));
    h := More(h, 0, Resume(false, false));
    CrowdedWraps(n);
    s' := Apply(Last(h), 0, Resume(false, false));
  }

  lemma CrowdedWraps(n: nat)
    requires n == SIZE_MAX
    ensures var s := Crowded(n); var s' := Continue(s, 0, false, false);
      Enabled(s, 0, Resume(false, false)) && |StrongHolders(s.handles, 0)| == n
      && 0 in s'.blocks && s'.blocks[0].strong == 0 && !Inv(s')
  {
    hide StrongHolders, WeakHolders, Doing, Inv;
    CrowdedTally(n);
    CrowdedInv(n);
    LockNeedsRoom(Crowded(n), 0);
  }
}
