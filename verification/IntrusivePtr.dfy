/**
 The handle classes of intrusive_ptr.h as one thread uses them. `World` is the pool of all handles
 and targets; its invariant says that use counts are numbers of handles, and that a target is alive
 exactly as long as some strong handle points to it.
 */
module IntrusivePtrs {
  import opened Core

  class ControlBlock {
    var strongRefs: nat
    var weakRefs: nat
    var target: Target?
    var freed: bool
    ghost var owner: Target?

    constructor ()
      ensures strongRefs == 1 && weakRefs == 1 && target == null && !freed
    {
      strongRefs, weakRefs, target, freed := 1, 1, null, false;
    }
  }

  /** `IntrusivePtrTarget` and what is derived from it; `destroyed` once its destructor has run. */
  class Target {
    const control: ControlBlock
    var destroyed: bool

    constructor ()
      ensures fresh(control) && !destroyed && control.owner == this && control.target == this
      ensures control.strongRefs == 1 && control.weakRefs == 1 && !control.freed
    {
      control := new ControlBlock();
      destroyed := false;
      new;
      control.target := this;
      control.owner := this;
    }
  }

  // ----- The counters

  /**
   `increment_ref_count`: the new count, unless the loop terminates the program. A compare-and-swap
   may fail spuriously any finite number of times.
   */
  method IncrementRefCount(count: nat) returns (count': nat, terminated: bool)
    ensures terminated <==> count == SIZE_MAX
    ensures count' == if terminated then count else count + 1
  {
    var failures: nat := *;
    var current := count;
    count', terminated := count, false;
    while true
      invariant current == count == count' && !terminated
      decreases failures
    {
      if current == SIZE_MAX { return count, true; }
      if failures == 0 { return current + 1, false; }
      failures := failures - 1;
      current := count;
    }
  }

  /** The loop of `try_retain_strong_ref`; it has no test for the limit, where the count wraps around. */
  method TryIncrement(count: nat) returns (count': nat, retained: bool)
    requires count <= SIZE_MAX
    ensures retained <==> count > 0
    ensures count' == if !retained then count else if count == SIZE_MAX then 0 else count + 1
  {
    var failures: nat := *;
    var current := count;
    count', retained := count, false;
    while current != 0
      invariant current == count == count' && !retained
      decreases failures
    {
      if failures == 0 { return (current + 1) % (SIZE_MAX + 1), true; }
      failures := failures - 1;
      current := count;
    }
  }

  /** The strong handles that point to `t`. */
  ghost function PointingTo(s: set<IntrusivePtr>, t: Target): set<IntrusivePtr>
    reads s
  {
    set p | p in s && p.target == t
  }

  /** The weak handles on the block `c`. */
  ghost function ControlledBy(s: set<WeakIntrusivePtr>, c: ControlBlock): set<WeakIntrusivePtr>
    reads s
  {
    set p | p in s && p.control == c
  }

  lemma PointingToGrows(s: set<IntrusivePtr>, p: IntrusivePtr, t: Target)
    requires p !in s
    ensures PointingTo(s + {p}, t) == if p.target == t then PointingTo(s, t) + {p} else PointingTo(s, t)
    ensures |PointingTo(s + {p}, t)| == |PointingTo(s, t)| + if p.target == t then 1 else 0
  {
    assert PointingTo(s + {p}, t) == if p.target == t then PointingTo(s, t) + {p} else PointingTo(s, t);
    assert p !in PointingTo(s, t);
  }

  lemma ControlledByGrows(s: set<WeakIntrusivePtr>, p: WeakIntrusivePtr, c: ControlBlock)
    requires p !in s
    ensures ControlledBy(s + {p}, c) == if p.control == c then ControlledBy(s, c) + {p} else ControlledBy(s, c)
    ensures |ControlledBy(s + {p}, c)| == |ControlledBy(s, c)| + if p.control == c then 1 else 0
  {
    assert ControlledBy(s + {p}, c) == if p.control == c then ControlledBy(s, c) + {p} else ControlledBy(s, c);
    assert p !in ControlledBy(s, c);
  }

  /** The contribution of one strong handle. */
  lemma PointingToSplit(s: set<IntrusivePtr>, p: IntrusivePtr, t: Target)
    requires p in s
    ensures |PointingTo(s, t)| == |PointingTo(s - {p}, t)| + if p.target == t then 1 else 0
  {
    assert s == (s - {p}) + {p};
    PointingToGrows(s - {p}, p, t);
  }

  /** The contribution of one weak handle. */
  lemma ControlledBySplit(s: set<WeakIntrusivePtr>, p: WeakIntrusivePtr, c: ControlBlock)
    requires p in s
    ensures |ControlledBy(s, c)| == |ControlledBy(s - {p}, c)| + if p.control == c then 1 else 0
  {
    assert s == (s - {p}) + {p};
    ControlledByGrows(s - {p}, p, c);
  }

  /** All handles in their lifetime and all targets ever made. */
  class World {
    ghost var strongs: set<IntrusivePtr>
    ghost var weaks: set<WeakIntrusivePtr>
    ghost var targets: set<Target>
    var terminated: bool

    ghost function Holders(t: Target): set<IntrusivePtr>
      reads this, strongs
    {
      PointingTo(strongs, t)
    }

    ghost function WeakHolders(t: Target): set<WeakIntrusivePtr>
      reads this, weaks
    {
      ControlledBy(weaks, t.control)
    }

    /** The counters of `t` count its handles, and what the operation in progress owes beyond them. */
    ghost predicate Balanced(t: Target, strong: nat, weak: nat)
      reads this, strongs, weaks, t, t.control
    {
      var c := t.control;
      && c.owner == t && c.strongRefs <= SIZE_MAX && c.weakRefs <= SIZE_MAX
      && c.strongRefs == |Holders(t)| + strong
      && c.weakRefs == |WeakHolders(t)| + weak + (if t.destroyed then 0 else 1)
      && (t.destroyed <==> c.strongRefs == 0)
      && c.target == (if t.destroyed then null else t)
      && (c.freed <==> c.weakRefs == 0)
    }

    /** Handles refer to targets of this world. */
    ghost predicate WellFormed()
      reads this, strongs, weaks
    {
      && (forall p | p in strongs && p.target != null :: p.target in targets)
      && (forall p | p in weaks && p.control != null :: p.of in targets && p.of.control == p.control)
    }

    /** Everything is balanced, except that `strong` and `weak` references to `t` are owed. */
    ghost predicate Owing(t: Target, strong: nat, weak: nat)
      reads this, strongs, weaks, targets, set u | u in targets :: u.control
    {
      && !terminated && WellFormed()
      && forall u | u in targets :: Balanced(u, if u == t then strong else 0, if u == t then weak else 0)
    }

    /**
     Between operations: each use count is the number of strong handles, a target is destroyed exactly
     if it has none, and a block is freed exactly if its target is destroyed and it has no weak handle.
     */
    ghost predicate Valid()
      reads this, strongs, weaks, targets, set u | u in targets :: u.control
    {
      && !terminated && WellFormed()
      && forall u | u in targets :: Balanced(u, 0, 0)
    }

    constructor ()
      ensures Valid() && strongs == {} && weaks == {} && targets == {}
    {
      strongs, weaks, targets, terminated := {}, {}, {}, false;
    }

    /** A strong handle begins its lifetime; the reference it shows, if any, is already counted. */
    ghost method Enlist(p: IntrusivePtr)
      requires p !in strongs
      requires if p.target == null then Valid() else p.target in targets && Owing(p.target, 1, 0)
      modifies this`strongs
      ensures Valid() && strongs == old(strongs) + {p}
    {
      hide PointingTo, ControlledBy;
      assert forall u | u in targets :: Balanced(u, if u == p.target then 1 else 0, 0);
      hide Owing;
      strongs := strongs + {p};
      forall u | u in targets ensures Balanced(u, 0, 0) {
        PointingToGrows(old(strongs), p, u);
        assert old(Balanced(u, if u == p.target then 1 else 0, 0));
      }
    }

    /** An empty strong handle ends its lifetime. */
    ghost method Retire(p: IntrusivePtr)
      requires p in strongs && p.target == null && Valid()
      modifies this`strongs
      ensures Valid() && strongs == old(strongs) - {p}
    {
      hide PointingTo, ControlledBy;
      strongs := strongs - {p};
      assert old(strongs) == strongs + {p};
      forall u | u in targets ensures Balanced(u, 0, 0) {
        PointingToGrows(strongs, p, u);
        assert old(Balanced(u, 0, 0));
      }
    }

    ghost method EnlistWeak(p: WeakIntrusivePtr)
      requires p !in weaks
      requires if p.control == null then Valid()
               else p.of != null && p.of in targets && p.of.control == p.control && Owing(p.of, 0, 1)
      modifies this`weaks
      ensures Valid() && weaks == old(weaks) + {p}
    {
      hide PointingTo, ControlledBy;
      assert forall u | u in targets :: Balanced(u, 0, if p.control != null && u == p.of then 1 else 0);
      hide Owing;
      weaks := weaks + {p};
      forall u | u in targets ensures Balanced(u, 0, 0) {
        ControlledByGrows(old(weaks), p, u.control);
        assert p.control != null ==> old(Balanced(p.of, 0, 1));
        assert old(Balanced(u, 0, if p.control != null && u == p.of then 1 else 0));
      }
    }

    ghost method RetireWeak(p: WeakIntrusivePtr)
      requires p in weaks && p.control == null && Valid()
      modifies this`weaks
      ensures Valid() && weaks == old(weaks) - {p}
    {
      hide PointingTo, ControlledBy;
      weaks := weaks - {p};
      assert old(weaks) == weaks + {p};
      forall u | u in targets ensures Balanced(u, 0, 0) {
        ControlledByGrows(weaks, p, u.control);
        assert old(Balanced(u, 0, 0));
      }
    }
  }

  /** What the invariant says about one target. */
  lemma UseCountsAndLifetimes(w: World, t: Target)
    requires w.Valid() && t in w.targets
    ensures t.control.strongRefs == |w.Holders(t)|
    ensures t.destroyed <==> w.Holders(t) == {}
    ensures t.control.freed <==> w.Holders(t) == {} && w.WeakHolders(t) == {}
  {
    assert w.Balanced(t, 0, 0);
  }

  /** What releasing a reference to `t` may change. */
  ghost function Footprint(t: Target?): set<object> { if t == null then {} else {t, t.control} }

  /** `release_weak_ref` */
  method ReleaseWeakRef(ghost w: World, c: ControlBlock, ghost t: Target)
    requires t in w.targets && c == t.control && w.Owing(t, 0, 1)
    modifies c
    ensures w.Valid()
  {
    assert w.Balanced(t, 0, 1);
    assert !c.freed;
    c.weakRefs := c.weakRefs - 1;
    if c.weakRefs == 0 { c.freed := true; }
  }

  /** `release_strong_ref`, the destructor of the target included. */
  method ReleaseStrongRef(ghost w: World, c: ControlBlock, ghost t: Target)
    requires t in w.targets && c == t.control && w.Owing(t, 1, 0)
    modifies c, t
    ensures w.Valid()
  {
    assert w.Balanced(t, 1, 0);
    assert !c.freed;
    c.strongRefs := c.strongRefs - 1;
    if c.strongRefs == 0 {
      var target := c.target;
      c.target := null;
      if target != null {
        assert !target.destroyed;
        target.destroyed := true;
        ReleaseWeakRef(w, target.control, t);
      }
    }
  }

  class IntrusivePtr {
    var target: Target?

    constructor Null(ghost w: World)
      requires w.Valid()
      modifies w`strongs
      ensures target == null
      ensures w.Valid() && w.strongs == old(w.strongs) + {this}
    {
      target := null;
      new;
      w.Enlist(this);
    }

    /** The adopting constructor: it takes over a reference that is already counted. */
    constructor Adopt(ghost w: World, target: Target)
      requires target in w.targets
      modifies w`strongs
      ensures this.target == target && w.strongs == old(w.strongs) + {this}
      ensures old(w.Owing(target, 1, 0)) ==> w.Valid()
    {
      this.target := target;
      new;
      if w.Owing(target, 1, 0) { w.Enlist(this); } else { w.strongs := w.strongs + {this}; }
    }

    /** `IntrusivePtr(const IntrusivePtr&)` */
    constructor Copy(w: World, other: IntrusivePtr)
      requires w.Valid() && other in w.strongs
      modifies w`strongs, w`terminated, Footprint(other.target)
      ensures target == old(other.target)
      ensures w.terminated <==> target != null && old(|w.Holders(other.target)|) == SIZE_MAX
      ensures !w.terminated ==> w.Valid() && w.strongs == old(w.strongs) + {this}
    {
      target := other.target;
      new;
      if target != null {
        var terminated := RetainStrongRef(w, target.control, target, other);
        w.terminated := terminated;
      }
      if !w.terminated { w.Enlist(this); }
    }

    /** `IntrusivePtr(IntrusivePtr&&)` */
    constructor Move(ghost w: World, other: IntrusivePtr)
      requires w.Valid() && other in w.strongs
      modifies w`strongs, other
      ensures target == old(other.target) && other.target == null
      ensures w.Valid() && w.strongs == old(w.strongs) + {this}
    {
      target := other.target;
      new;
      var moved := other.Take(w);
      w.Enlist(this);
    }

    /** `std::exchange(target_, nullptr)`: the reference is no longer shown but still counted. */
    method Take(ghost w: World) returns (t: Target?)
      requires w.Valid() && this in w.strongs
      modifies this
      ensures target == null && t == old(target)
      ensures if t == null then w.Valid() else t in w.targets && w.Owing(t, 1, 0)
    {
      hide PointingTo, ControlledBy;
      forall u { PointingToSplit(w.strongs, this, u); }
      t := target;
      target := null;
      forall u | u in w.targets ensures w.Balanced(u, if u == t then 1 else 0, 0) {
        PointingToSplit(w.strongs, this, u);
        assert old(w.Balanced(u, 0, 0));
      }
    }

    /** `target_ = t` on an empty handle, where the reference is already counted. */
    method Store(ghost w: World, t: Target?)
      requires this in w.strongs && target == null
      requires if t == null then w.Valid() else t in w.targets && w.Owing(t, 1, 0)
      modifies this
      ensures w.Valid() && target == t
    {
      hide PointingTo, ControlledBy;
      forall u { PointingToSplit(w.strongs, this, u); }
      target := t;
      forall u | u in w.targets ensures w.Balanced(u, 0, 0) {
        PointingToSplit(w.strongs, this, u);
        assert old(w.Balanced(u, if u == t then 1 else 0, 0));
      }
    }

    /** `reset` */
    method Reset(ghost w: World)
      requires w.Valid() && this in w.strongs
      modifies this, Footprint(target)
      ensures w.Valid() && target == null
    {
      var t := Take(w);
      if t != null { ReleaseStrongRef(w, t.control, t); }
    }

    /** The destructor. */
    method Destroy(ghost w: World)
      requires w.Valid() && this in w.strongs
      modifies this, Footprint(target), w`strongs
      ensures w.Valid() && w.strongs == old(w.strongs) - {this}
    {
      Reset(w);
      w.Retire(this);
    }

    /** `swap`, also with itself. */
    method Swap(ghost w: World, other: IntrusivePtr)
      requires w.Valid() && this in w.strongs && other in w.strongs
      modifies this, other
      ensures target == old(other.target) && other.target == old(target)
      ensures w.Valid()
    {
      hide PointingTo, ControlledBy;
      if this != other {
        var rest := w.strongs - {this};
        forall u { PointingToSplit(w.strongs, this, u); }
        forall u { PointingToSplit(rest, other, u); }
        target, other.target := other.target, target;
        forall u | u in w.targets ensures w.Balanced(u, 0, 0) {
          PointingToSplit(w.strongs, this, u);
          PointingToSplit(rest, other, u);
          assert old(w.Balanced(u, 0, 0));
        }
      }
    }

    /** `operator=(const IntrusivePtr&)`, also from itself. */
    method CopyAssign(w: World, other: IntrusivePtr)
      requires w.Valid() && this in w.strongs && other in w.strongs
      modifies this, w`strongs, w`terminated, Footprint(target), Footprint(other.target)
      ensures w.terminated <==> this != other && old(other.target) != null && old(|w.Holders(other.target)|) == SIZE_MAX
      ensures !w.terminated ==> w.Valid() && w.strongs == old(w.strongs) && target == old(other.target)
    {
      hide PointingTo, ControlledBy;
      if this != other {
        var copy := new IntrusivePtr.Copy(w, other);
        if w.terminated { return; }
        Swap(w, copy);
        copy.Destroy(w);
      }
    }

    /** `operator=(IntrusivePtr&&)`, also from itself. */
    method MoveAssign(ghost w: World, other: IntrusivePtr)
      requires w.Valid() && this in w.strongs && other in w.strongs
      modifies this, other, Footprint(target)
      ensures w.Valid()
      ensures target == old(other.target) && (this != other ==> other.target == null)
    {
      if this != other {
        Reset(w);
        var t := other.Take(w);
        Store(w, t);
      }
    }

    /** A strong handle keeps its target and its block. */
    lemma HoldsTarget(w: World)
      requires w.Valid() && this in w.strongs && target != null
      ensures target in w.targets && !target.destroyed && !target.control.freed && target.control.weakRefs > 0
      ensures w.Balanced(target, 0, 0)
    {
      assert w.Balanced(target, 0, 0);
      assert this in w.Holders(target);
    }

    /** `use_count` */
    method UseCount(ghost w: World) returns (n: nat)
      requires w.Valid() && this in w.strongs
      ensures n == if target == null then 0 else |w.Holders(target)|
      ensures target != null ==> n > 0
    {
      if target == null { return 0; }
      HoldsTarget(w);
      return target.control.strongRefs;
    }
  }

  /** `retain_strong_ref` on the target of an existing handle. */
  method RetainStrongRef(ghost w: World, c: ControlBlock, ghost t: Target, ghost source: IntrusivePtr)
      returns (terminated: bool)
    requires w.Valid() && t in w.targets && c == t.control && source in w.strongs && source.target == t
    modifies c
    ensures terminated <==> old(|w.Holders(t)|) == SIZE_MAX
    ensures !terminated ==> w.Owing(t, 1, 0)
  {
    assert w.Balanced(t, 0, 0);
    assert source in w.Holders(t);
    assert !c.freed;
    c.strongRefs, terminated := IncrementRefCount(c.strongRefs);
  }

  /** `retain_weak_ref` on the block of a target that a handle refers to. */
  method RetainWeakRef(ghost w: World, c: ControlBlock, ghost t: Target) returns (terminated: bool)
    requires w.Valid() && t in w.targets && c == t.control && c.weakRefs > 0
    modifies c
    ensures terminated <==> old(c.weakRefs) == SIZE_MAX
    ensures !terminated ==> w.Owing(t, 0, 1)
  {
    assert w.Balanced(t, 0, 0);
    assert !c.freed;
    c.weakRefs, terminated := IncrementRefCount(c.weakRefs);
  }

  /** A weak handle; the specification remembers the target `of` which it holds the control block. */
  class WeakIntrusivePtr {
    var control: ControlBlock?
    ghost var of: Target?

    constructor Null(ghost w: World)
      requires w.Valid()
      modifies w`weaks
      ensures control == null
      ensures w.Valid() && w.weaks == old(w.weaks) + {this}
    {
      control, of := null, null;
      new;
      w.EnlistWeak(this);
    }

    /** `WeakIntrusivePtr(const IntrusivePtr<T>&)` */
    constructor FromStrong(w: World, strong: IntrusivePtr)
      requires w.Valid() && strong in w.strongs
      modifies w`weaks, w`terminated, Footprint(strong.target)
      ensures strong.target == old(strong.target)
      ensures if strong.target == null then control == null else of == strong.target && control == strong.target.control
      ensures w.terminated <==> strong.target != null && old(|w.WeakHolders(strong.target)|) + 1 == SIZE_MAX
      ensures !w.terminated ==> w.Valid() && w.weaks == old(w.weaks) + {this}
    {
      control := if strong.target == null then null else strong.target.control;
      of := strong.target;
      new;
      if control != null {
        strong.HoldsTarget(w);
        var terminated := RetainWeakRef(w, control, of);
        w.terminated := terminated;
      }
      if !w.terminated { w.EnlistWeak(this); }
    }

    /** `WeakIntrusivePtr(const WeakIntrusivePtr&)` */
    constructor Copy(w: World, other: WeakIntrusivePtr)
      requires w.Valid() && other in w.weaks
      modifies w`weaks, w`terminated, other.control
      ensures control == old(other.control) && (control != null ==> of == old(other.of))
      ensures w.terminated <==> control != null && old(other.control.weakRefs) == SIZE_MAX
      ensures !w.terminated ==> w.Valid() && w.weaks == old(w.weaks) + {this}
    {
      control, of := other.control, other.of;
      new;
      if control != null {
        other.HoldsBlock(w);
        var terminated := RetainWeakRef(w, control, of);
        w.terminated := terminated;
      }
      if !w.terminated { w.EnlistWeak(this); }
    }

    /** A weak handle keeps its block. */
    lemma HoldsBlock(w: World)
      requires w.Valid() && this in w.weaks && control != null
      ensures of in w.targets && of.control == control && control.weakRefs > 0 && !control.freed
      ensures w.Balanced(of, 0, 0)
    {
      assert w.Balanced(of, 0, 0);
      assert this in w.WeakHolders(of);
    }

    /** `WeakIntrusivePtr(WeakIntrusivePtr&&)` */
    constructor Move(ghost w: World, other: WeakIntrusivePtr)
      requires w.Valid() && other in w.weaks
      modifies w`weaks, other
      ensures control == old(other.control) && (control != null ==> of == old(other.of)) && other.control == null
      ensures w.Valid() && w.weaks == old(w.weaks) + {this}
    {
      control, of := other.control, other.of;
      new;
      var moved := other.Take(w);
      w.EnlistWeak(this);
    }

    /** `std::exchange(control_, nullptr)` */
    method Take(ghost w: World) returns (c: ControlBlock?)
      requires w.Valid() && this in w.weaks
      modifies this`control
      ensures control == null && c == old(control)
      ensures if c == null then w.Valid() else of in w.targets && of.control == c && w.Owing(of, 0, 1)
    {
      hide PointingTo, ControlledBy;
      forall u { ControlledBySplit(w.weaks, this, u); }
      c := control;
      control := null;
      forall u | u in w.targets ensures w.Balanced(u, 0, if c != null && u == of then 1 else 0) {
        ControlledBySplit(w.weaks, this, u.control);
        assert old(w.Balanced(u, 0, 0));
        assert c != null ==> old(w.Balanced(of, 0, 0));
      }
    }

    /** `control_ = c` on an empty handle, where the reference is already counted. */
    method Store(ghost w: World, c: ControlBlock?, ghost t: Target?)
      requires this in w.weaks && control == null
      requires if c == null then w.Valid() else t != null && t in w.targets && t.control == c && w.Owing(t, 0, 1)
      modifies this
      ensures w.Valid() && control == c && of == t
    {
      hide PointingTo, ControlledBy;
      forall u { ControlledBySplit(w.weaks, this, u); }
      control, of := c, t;
      forall u | u in w.targets ensures w.Balanced(u, 0, 0) {
        ControlledBySplit(w.weaks, this, u.control);
        assert c != null ==> old(w.Balanced(t, 0, 1));
        assert old(w.Balanced(u, 0, if c != null && u == t then 1 else 0));
      }
    }

    /** `reset` */
    method Reset(ghost w: World)
      requires w.Valid() && this in w.weaks
      modifies this`control, control
      ensures w.Valid() && control == null
      ensures forall u | u in w.targets :: u.destroyed == old(u.destroyed)
    {
      var c := Take(w);
      if c != null { ReleaseWeakRef(w, c, of); }
    }

    /** The destructor. */
    method Destroy(ghost w: World)
      requires w.Valid() && this in w.weaks
      modifies this`control, control, w`weaks
      ensures w.Valid() && w.weaks == old(w.weaks) - {this}
    {
      Reset(w);
      w.RetireWeak(this);
    }

    /** `swap`, also with itself. */
    method Swap(ghost w: World, other: WeakIntrusivePtr)
      requires w.Valid() && this in w.weaks && other in w.weaks
      modifies this, other
      ensures control == old(other.control) && of == old(other.of)
      ensures other.control == old(control) && other.of == old(of)
      ensures w.Valid()
    {
      hide PointingTo, ControlledBy;
      if this != other {
        var rest := w.weaks - {this};
        forall u { ControlledBySplit(w.weaks, this, u); }
        forall u { ControlledBySplit(rest, other, u); }
        control, other.control := other.control, control;
        of, other.of := other.of, of;
        forall u | u in w.targets ensures w.Balanced(u, 0, 0) {
          ControlledBySplit(w.weaks, this, u.control);
          ControlledBySplit(rest, other, u.control);
          assert old(w.Balanced(u, 0, 0));
        }
      }
    }

    /** `operator=(const WeakIntrusivePtr&)`, also from itself. */
    method CopyAssign(w: World, other: WeakIntrusivePtr)
      requires w.Valid() && this in w.weaks && other in w.weaks
      modifies this, w`weaks, w`terminated, control, other.control
      ensures w.terminated <==> this != other && old(other.control) != null && old(other.control.weakRefs) == SIZE_MAX
      ensures !w.terminated ==> w.Valid() && w.weaks == old(w.weaks)
      ensures !w.terminated ==> control == old(other.control) && (control != null ==> of == old(other.of))
    {
      if this != other {
        var copy := new WeakIntrusivePtr.Copy(w, other);
        if w.terminated { return; }
        Swap(w, copy);
        copy.Destroy(w);
      }
    }

    /**
     `operator=(WeakIntrusivePtr&&)`, also from itself. No target is destroyed between the two accesses, so
     it does not matter where the handles are stored.
     */
    method MoveAssign(ghost w: World, other: WeakIntrusivePtr)
      requires w.Valid() && this in w.weaks && other in w.weaks
      modifies this, other, control
      ensures w.Valid()
      ensures forall u | u in w.targets :: u.destroyed == old(u.destroyed)
      ensures control == old(other.control) && (control != null ==> of == old(other.of))
      ensures this != other ==> other.control == null
    {
      if this != other {
        Reset(w);
        var c := other.Take(w);
        Store(w, c, other.of);
      }
    }

    /** `expired`: no strong handle points to the target any more. */
    method Expired(ghost w: World) returns (b: bool)
      requires w.Valid() && this in w.weaks
      ensures b <==> control == null || w.Holders(of) == {}
      ensures control != null ==> (b <==> of.destroyed)
    {
      if control == null { return true; }
      HoldsBlock(w);
      return control.strongRefs == 0;
    }

    /**
     `lock`: a new strong handle on the target if any strong handle is left, else an empty one. The
     handle is counted unless SIZE_MAX handles were there before: then the count wraps around to 0.
     */
    method Lock(ghost w: World) returns (p: IntrusivePtr)
      requires w.Valid() && this in w.weaks
      modifies w`strongs, control
      ensures fresh(p) && w.strongs == old(w.strongs) + {p}
      ensures p.target == if control != null && old(w.Holders(of)) != {} then of else null
      ensures p.target != null ==> !p.target.destroyed
      ensures w.Valid() <==> control == null || old(|w.Holders(of)|) < SIZE_MAX
      ensures control != null && old(|w.Holders(of)|) == SIZE_MAX ==> control.strongRefs == 0
    {
      if control == null {
        p := new IntrusivePtr.Null(w);
        return;
      }
      HoldsBlock(w);
      var count, retained := TryIncrement(control.strongRefs);
      control.strongRefs := count;
      if retained {
        assert w.Balanced(of, 1, 0) || count == 0;
        p := new IntrusivePtr.Adopt(w, control.target);
        if count == 0 { Miscounted(w, of, p); }
      } else {
        p := new IntrusivePtr.Null(w);
      }
    }

    /** A count of 0 is wrong while there is a handle. */
    lemma Miscounted(w: World, t: Target, p: IntrusivePtr)
      requires t in w.targets && p in w.strongs && p.target == t && t.control.strongRefs == 0
      ensures !w.Valid()
    {
      assert w.Valid() ==> w.Balanced(t, 0, 0);
      assert p in w.Holders(t);
    }
  }

  /**
   `make_intrusive`. If the constructor of the target throws, its base destructor releases the implicit
   weak reference, which frees the block although the strong count is still 1.
   */
  method MakeIntrusive(ghost w: World, throws: bool) returns (p: IntrusivePtr?, ghost t: Target)
    requires w.Valid()
    modifies w`strongs, w`targets
    ensures w.Valid() && fresh(t)
    ensures !throws ==> p != null && fresh(p) && p.target == t && |w.Holders(t)| == 1
    ensures !throws ==> w.targets == old(w.targets) + {t} && w.strongs == old(w.strongs) + {p}
    ensures throws ==> p == null && w.targets == old(w.targets) && w.strongs == old(w.strongs)
    ensures throws ==> t.control.freed && t.control.strongRefs == 1
  {
    var target := new Target();
    t := target;
    if throws {
      var c := target.control;
      c.weakRefs := c.weakRefs - 1;
      if c.weakRefs == 0 { c.freed := true; }
      return null, t;
    }
    NoHolders(w, t);
    w.targets := w.targets + {t};
    p := new IntrusivePtr.Adopt(w, target);
    assert w.Balanced(t, 0, 0);
  }

  /** Nothing refers to a target that is not of this world. */
  lemma NoHolders(w: World, t: Target)
    requires w.Valid() && t !in w.targets && t.control.owner == t
    ensures w.Holders(t) == {} && w.WeakHolders(t) == {}
  {
    forall p | p in w.weaks ensures p.control != t.control {
      if p.control != null { p.HoldsBlock(w); }
    }
  }
}
