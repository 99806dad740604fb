/**
 Strong handles that are members of targets. Destroying a target destroys its members, which may give
 up the last references to further targets. A move assignment releases the old target before it
 reads the other handle, so it fails if that release destroys one of the two handles: this module
 says exactly when.
 */
module OwnedHandles {
  import opened Core

  type TargetId = nat

  /** A variable of the program, or a member of a target. */
  datatype Handle = Variable(id: nat) | Member(owner: TargetId, index: nat)

  /** The handles in their lifetime, with the targets they point to. */
  type Handles = map<Handle, Option<TargetId>>

  /** The strong count of a target, and the number of its members that are not destroyed yet. */
  datatype Target = Target(strong: nat, members: nat)

  type Targets = map<TargetId, Target>

  function Pointing(hs: Handles, t: TargetId): set<Handle> { set k | k in hs && hs[k] == Some(t) }

  function One(c: bool): nat { if c then 1 else 0 }

  /** Counts are numbers of handles, one more for the target whose reference is owed; members belong to their owners. */
  ghost predicate Balanced(hs: Handles, ts: Targets, owed: Option<TargetId>) {
    && (owed.Some? ==> owed.value in ts)
    && (forall k | k in hs && hs[k].Some? :: hs[k].value in ts)
    && (forall t | t in ts :: ts[t].strong == |Pointing(hs, t)| + One(owed == Some(t)))
    && (forall k: Handle | k.Member? :: k in hs <==> k.owner in ts && k.index < ts[k.owner].members)
  }

  // ----- What keeps targets alive

  /** Each of these targets has a handle that is a variable or a member of one of them. */
  ghost predicate Supported(hs: Handles, S: set<TargetId>) {
    forall t | t in S :: exists k :: k in hs && hs[k] == Some(t) && (k.Variable? || k.owner in S)
  }

  /** Something holds the target, without regard to the order in which references are given up. */
  ghost predicate Held(hs: Handles, t: TargetId) { exists S :: t in S && Supported(hs, S) }

  /** The handle is a member of a target that nothing holds. */
  ghost predicate Lost(hs: Handles, k: Handle) { k.Member? && !Held(hs, k.owner) }

  // ----- What a release may do

  /** Handles and targets only disappear: no variable does, no half destroyed target, and nothing that is held. */
  ghost predicate Cascade(hs: Handles, ts: Targets, hs': Handles, ts': Targets) {
    && (forall k | k in hs' :: k in hs && hs'[k] == hs[k])
    && (forall k: Handle | k in hs && k.Variable? :: k in hs')
    && (forall t | t in ts' ::
          t in ts && ts'[t].members == ts[t].members && (ts'[t].strong == 0 <==> ts[t].strong == 0))
    && (forall t | t in ts && ts[t].strong == 0 :: t in ts')
    && (forall S | Supported(hs, S) :: Supported(hs', S))
  }

  lemma CascadeTransitive(hs: Handles, ts: Targets, hs1: Handles, ts1: Targets, hs2: Handles, ts2: Targets)
    requires Cascade(hs, ts, hs1, ts1) && Cascade(hs1, ts1, hs2, ts2)
    ensures Cascade(hs, ts, hs2, ts2)
  {
    hide Supported;
  }

  /** The cascade leaves a half destroyed target as it is. */
  lemma CascadeElsewhere(hs: Handles, ts: Targets, hs': Handles, ts': Targets, t: TargetId)
    requires Cascade(hs, ts, hs', ts') && t in ts && ts[t].strong == 0
    ensures t in ts' && ts'[t].strong == 0 && ts'[t].members == ts[t].members
    ensures Cascade(hs, ts - {t}, hs', ts' - {t})
  {
    hide Supported;
  }

  /** No supported target rests on a member of a target without handles. */
  lemma MemberGone(hs: Handles, ts: Targets, m: Handle)
    requires m.Member? && Pointing(hs, m.owner) == {}
    ensures Cascade(hs, ts, hs - {m}, ts)
  {
    forall S | Supported(hs, S) ensures Supported(hs - {m}, S) {
      assert m.owner !in S by { assert forall k | k in hs && hs[k] == Some(m.owner) :: k in Pointing(hs, m.owner); }
      forall t | t in S ensures exists k :: k in hs - {m} && (hs - {m})[k] == Some(t) && (k.Variable? || k.owner in S) {
        var k :| k in hs && hs[k] == Some(t) && (k.Variable? || k.owner in S);
        assert k in hs - {m};
      }
    }
  }

  lemma PointingPut(hs: Handles, k: Handle, v: Option<TargetId>, t: TargetId)
    ensures |Pointing(hs[k := v], t)| + One(k in hs && hs[k] == Some(t)) == |Pointing(hs, t)| + One(v == Some(t))
  {
    var before, after := Pointing(hs, t), Pointing(hs[k := v], t);
    assert after == if v == Some(t) then before + {k} else before - {k};
    assert k in before <==> k in hs && hs[k] == Some(t);
  }

  lemma PointingDrop(hs: Handles, k: Handle, t: TargetId)
    requires k in hs
    ensures |Pointing(hs - {k}, t)| + One(hs[k] == Some(t)) == |Pointing(hs, t)|
  {
    assert Pointing(hs - {k}, t) == Pointing(hs, t) - {k};
    assert k in Pointing(hs, t) <==> hs[k] == Some(t);
  }

  /** Storing a reference that is owed in a handle leaves the one owed that the handle had. */
  lemma Stored(hs: Handles, ts: Targets, k: Handle, v: Option<TargetId>)
    requires Balanced(hs, ts, v) && k in hs
    ensures Balanced(hs[k := v], ts, hs[k])
  {
    hide Pointing;
    forall t | t in ts ensures ts[t].strong == |Pointing(hs[k := v], t)| + One(hs[k] == Some(t)) {
      PointingPut(hs, k, v, t);
    }
  }

  lemma Retained(hs: Handles, ts: Targets, t: TargetId)
    requires Balanced(hs, ts, None) && t in ts
    ensures Balanced(hs, ts[t := ts[t].(strong := ts[t].strong + 1)], Some(t))
  {
    hide Pointing;
  }

  /** The last member of a target without handles is destroyed. */
  lemma MemberDropped(hs: Handles, ts: Targets, m: Handle)
    requires Balanced(hs, ts, None) && m in hs && m.Member? && ts[m.owner] == Target(0, m.index + 1)
    ensures Balanced(hs - {m}, ts[m.owner := Target(0, m.index)], hs[m]) && hs[m] != Some(m.owner)
    ensures Pointing(hs, m.owner) == {}
  {
    assert m in Pointing(hs, m.owner) <==> hs[m] == Some(m.owner);
    hide Pointing;
    forall t | t in ts ensures ts[t].strong == |Pointing(hs - {m}, t)| + One(hs[m] == Some(t)) {
      PointingDrop(hs, m, t);
    }
  }

  /** Paying back the reference that is owed restores the balance. */
  lemma Paid(hs: Handles, ts: Targets, t: TargetId)
    requires Balanced(hs, ts, Some(t))
    ensures t in ts && ts[t].strong > 0 && Balanced(hs, ts[t := ts[t].(strong := ts[t].strong - 1)], None)
  {
    hide Pointing;
  }

  /** A target without handles and members can go. */
  lemma Buried(hs: Handles, ts: Targets, t: TargetId)
    requires Balanced(hs, ts, None) && t in ts && ts[t] == Target(0, 0)
    ensures Balanced(hs, ts - {t}, None)
  {
    forall k | k in hs && hs[k].Some? ensures hs[k].value in ts - {t} {
      assert k in Pointing(hs, hs[k].value);
    }
  }

  /** The cascade that starts with one target ends with its disappearance. */
  lemma CascadeEnds(hs: Handles, ts: Targets, hs': Handles, ts': Targets, t: TargetId)
    requires t in ts && ts[t].strong > 0 && Cascade(hs, ts - {t}, hs', ts')
    ensures Cascade(hs, ts, hs', ts')
  {
    hide Supported;
  }

  lemma SmallerCascade(hs: Handles, ts: Targets, hs': Handles, ts': Targets)
    requires Cascade(hs, ts, hs', ts')
    ensures |hs'| <= |hs|
  {
    assert hs.Keys == hs'.Keys + (hs.Keys - hs'.Keys);
  }

  /** A release changes no handle by itself, and only the count of the target. */
  lemma CascadeStarts(hs: Handles, ts: Targets, ts': Targets, t: TargetId)
    requires t in ts && ts[t].strong > 0 && ts' == ts[t := ts[t].(strong := ts[t].strong - 1)]
    ensures Cascade(hs, ts - {t}, hs, ts - {t})
    ensures ts'[t].strong > 0 ==> Cascade(hs, ts, hs, ts')
  {
  }

  lemma MemberListed(hs: Handles, ts: Targets, m: Handle)
    requires Balanced(hs, ts, None) && m.Member? && m.owner in ts && m.index < ts[m.owner].members
    ensures m in hs
  {
  }

  // ----- What is left is what is held

  /** Exactly the targets that are held, and the handles that are variables or members of these. */
  ghost predicate Remains(hs: Handles, ts: Targets, hs': Handles, ts': Targets) {
    && (forall k :: k in hs' <==> k in hs && !Lost(hs, k))
    && (forall t :: t in ts' <==> t in ts && Held(hs, t))
  }

  predicate Whole(ts: Targets) { forall t | t in ts :: ts[t].strong > 0 }

  /** When every target has a handle, they support each other. */
  lemma AllSupported(hs: Handles, ts: Targets)
    requires Balanced(hs, ts, None) && Whole(ts)
    ensures Supported(hs, ts.Keys)
  {
    forall t | t in ts.Keys ensures exists k :: k in hs && hs[k] == Some(t) && (k.Variable? || k.owner in ts.Keys) {
      assert |Pointing(hs, t)| > 0;
      var k :| k in Pointing(hs, t);
      assert k in hs && hs[k] == Some(t);
    }
  }

  lemma SupportGrows(hs: Handles, hs': Handles, S: set<TargetId>)
    requires Supported(hs', S) && forall k | k in hs' :: k in hs && hs[k] == hs'[k]
    ensures Supported(hs, S)
  {
    forall t | t in S ensures exists k :: k in hs && hs[k] == Some(t) && (k.Variable? || k.owner in S) {
      var k :| k in hs' && hs'[k] == Some(t) && (k.Variable? || k.owner in S);
      assert k in hs && hs[k] == Some(t);
    }
  }

  lemma SupportedExist(hs: Handles, ts: Targets, S: set<TargetId>)
    requires Balanced(hs, ts, None) && Supported(hs, S)
    ensures S <= ts.Keys
  {
  }

  /** Although the cascade follows the order of the members, what survives depends on support alone. */
  lemma CascadeRemains(hs: Handles, ts: Targets, owed: Option<TargetId>, hs': Handles, ts': Targets)
    requires Balanced(hs, ts, owed) && Balanced(hs', ts', None) && Whole(ts) && Cascade(hs, ts, hs', ts')
    ensures Whole(ts') && Remains(hs, ts, hs', ts')
  {
    hide Supported, Pointing;
    AllSupported(hs', ts');
    SupportGrows(hs, hs', ts'.Keys);
    forall t ensures t in ts' <==> t in ts && Held(hs, t) {
      if t in ts && Held(hs, t) {
        var S :| t in S && Supported(hs, S);
        SupportedExist(hs', ts', S);
      }
    }
  }

  // ----- The operations

  class Pool {
    var handles: Handles
    var targets: Targets
    var fault: bool

    /** Between operations no target is half destroyed. */
    ghost predicate Valid() reads this {
      !fault && Balanced(handles, targets, None) && Whole(targets)
    }

    /** `release_strong_ref` with the destructor of the target, which destroys its members in reverse order. */
    method Release(t: TargetId)
      requires Balanced(handles, targets, Some(t))
      modifies this`handles, this`targets
      ensures Balanced(handles, targets, None)
      ensures Cascade(old(handles), old(targets), handles, targets)
      decreases |handles|
    {
      hide Balanced, Cascade;
      ghost var hs, ts := handles, targets;
      Paid(hs, ts, t);
      targets := targets[t := targets[t].(strong := targets[t].strong - 1)];
      assert targets - {t} == ts - {t};
      CascadeStarts(hs, ts, targets, t);
      if targets[t].strong > 0 { return; }
      while targets[t].members > 0
        invariant t in targets && targets[t].strong == 0 && Balanced(handles, targets, None)
        invariant Cascade(hs, ts - {t}, handles, targets - {t})
        decreases targets[t].members
      {
        ghost var hs1, ts1 := handles, targets;
        var m := Member(t, targets[t].members - 1);
        MemberListed(handles, targets, m);
        var victim := handles[m];
        MemberDropped(handles, targets, m);
        MemberGone(handles, targets - {t}, m);
        SmallerCascade(hs, ts - {t}, handles, targets - {t});
        handles := handles - {m};
        targets := targets[t := Target(0, m.index)];
        assert targets - {t} == ts1 - {t};
        if victim.Some? {
          ghost var hs2, ts2 := handles, targets;
          Release(victim.value);
          CascadeElsewhere(hs2, ts2, handles, targets, t);
          CascadeTransitive(hs1, ts1 - {t}, hs2, ts2 - {t}, handles, targets - {t});
        }
        CascadeTransitive(hs, ts - {t}, hs1, ts1 - {t}, handles, targets - {t});
      }
      Buried(handles, targets, t);
      targets := targets - {t};
      CascadeEnds(hs, ts, handles, targets, t);
    }

    constructor ()
      ensures Valid() && handles == map[] && targets == map[]
    {
      handles, targets, fault := map[], map[], false;
    }

    /** `make_intrusive` of a target with empty member handles. */
    method Make(p: Handle, t: TargetId, members: nat)
      requires Valid() && p.Variable? && p !in handles && t !in targets
      modifies this
      ensures Valid()
      ensures targets == old(targets)[t := Target(1, members)]
      ensures handles == (old(handles) + map i: nat | i < members :: Member(t, i) := None)[p := Some(t)]
    {
      MadeBalanced(handles, targets, p, t, members);
      handles := (handles + map i: nat | i < members :: Member(t, i) := None)[p := Some(t)];
      targets := targets[t := Target(1, members)];
    }

    /** Gives up the reference that is owed, if any. */
    method Settle(victim: Option<TargetId>)
      requires !fault && Balanced(handles, targets, victim) && Whole(targets)
      modifies this`handles, this`targets
      ensures Valid() && Remains(old(handles), old(targets), handles, targets)
      ensures forall k | k in handles :: k in old(handles) && handles[k] == old(handles)[k]
    {
      hide Balanced, Remains, Whole;
      CascadeReflexive(handles, targets);
      if victim.Some? { Release(victim.value); }
      CascadeRemains(old(handles), old(targets), victim, handles, targets);
    }

    /** `reset`, which clears the handle first, so that the handle may be destroyed by its own release. */
    method Reset(h: Handle)
      requires Valid() && h in handles
      modifies this`handles, this`targets
      ensures Valid() && Remains(old(handles)[h := None], old(targets), handles, targets)
      ensures forall k | k in handles :: k in old(handles) && handles[k] == old(handles)[h := None][k]
    {
      var victim := handles[h];
      Stored(handles, targets, h, None);
      handles := handles[h := None];
      Settle(victim);
    }

    /**
     `operator=(const IntrusivePtr&)`: the new reference is taken before the old one is given up, so that
     nothing is read or written after the release.
     */
    method CopyAssign(h: Handle, other: Handle) returns (terminated: bool)
      requires Valid() && h in handles && other in handles
      modifies this`handles, this`targets
      ensures terminated <==> h != other && old(handles)[other].Some?
                              && old(targets)[old(handles)[other].value].strong == SIZE_MAX
      ensures terminated || h == other ==> handles == old(handles) && targets == old(targets)
      ensures var hs := old(handles)[h := old(handles)[other]];
        !terminated && h != other ==>
          && Valid() && Remains(hs, old(targets), handles, targets)
          && forall k | k in handles :: k in hs && handles[k] == hs[k]
    {
      if h == other { return false; }
      var t, victim := handles[other], handles[h];
      if t.Some? {
        if targets[t.value].strong == SIZE_MAX { return true; }
        Retained(handles, targets, t.value);
        targets := targets[t.value := targets[t.value].(strong := targets[t.value].strong + 1)];
      }
      Stored(handles, targets, h, t);
      handles := handles[h := t];
      Settle(victim);
      return false;
    }

    /**
     `operator=(IntrusivePtr&&)`: fails exactly if the release of the old target destroys one of the two
     handles, that is, if one of them is a member of a target that nothing but this handle holds.
     */
    method MoveAssign(h: Handle, other: Handle)
      requires Valid() && h in handles && other in handles
      modifies this
      ensures var hs := old(handles)[h := None];
        && (fault <==> h != other && (Lost(hs, h) || Lost(hs, other)))
        && (h == other ==> handles == old(handles) && targets == old(targets))
        && (h != other ==> Remains(hs, old(targets), handles, targets))
        && (!fault && h != other ==>
              && h in handles && other in handles
              && forall k | k in handles :: k in hs && handles[k] ==
                   if k == h then old(handles)[other] else if k == other then None else hs[k])
      ensures !fault ==> Valid()
    {
      hide Balanced, Whole, Lost, Held;
      if h != other {
        Reset(h);
        if h !in handles || other !in handles {
          fault := true;
          return;
        }
        var t := handles[other];
        Stored(handles, targets, other, None);
        handles := handles[other := None];
        Stored(handles, targets, h, t);
        handles := handles[h := t];
      }
    }
  }

  lemma CascadeReflexive(hs: Handles, ts: Targets)
    ensures Cascade(hs, ts, hs, ts)
  {
  }

  lemma MadeBalanced(hs: Handles, ts: Targets, p: Handle, t: TargetId, members: nat)
    requires Balanced(hs, ts, None) && Whole(ts) && p.Variable? && p !in hs && t !in ts
    ensures var hs' := (hs + map i: nat | i < members :: Member(t, i) := None)[p := Some(t)];
      Balanced(hs', ts[t := Target(1, members)], None) && Whole(ts[t := Target(1, members)])
  {
    hide Pointing;
    var hs' := (hs + map i: nat | i < members :: Member(t, i) := None)[p := Some(t)];
    forall u ensures Pointing(hs', u) == if u == t then {p} else Pointing(hs, u) {
      MadePointing(hs, ts, p, t, members, u);
    }
  }

  lemma MadePointing(hs: Handles, ts: Targets, p: Handle, t: TargetId, members: nat, u: TargetId)
    requires Balanced(hs, ts, None) && p.Variable? && p !in hs && t !in ts
    ensures var hs' := (hs + map i: nat | i < members :: Member(t, i) := None)[p := Some(t)];
      Pointing(hs', u) == if u == t then {p} else Pointing(hs, u)
  {
    assert forall k: Handle | k in hs && k.Member? :: k.owner in ts;
  }

  // ----- When a move assignment is safe

  /** It is if the old target has another handle, or if there is none. */
  lemma SharedMoveIsSafe(hs: Handles, ts: Targets, h: Handle)
    requires Balanced(hs, ts, None) && Whole(ts) && h in hs
    requires hs[h].Some? ==> ts[hs[h].value].strong > 1
    ensures forall k | k in hs :: !Lost(hs[h := None], k)
  {
    hide Pointing;
    forall t | t in ts ensures exists k :: k in hs && k != h && hs[k] == Some(t) {
      AnotherHandle(hs, ts, h, t);
    }
    assert Supported(hs[h := None], ts.Keys) by {
      forall t | t in ts.Keys
        ensures exists k :: k in hs[h := None] && hs[h := None][k] == Some(t) && (k.Variable? || k.owner in ts.Keys)
      {
        var k :| k in hs && k != h && hs[k] == Some(t);
        assert k in hs[h := None] && hs[h := None][k] == Some(t);
      }
    }
  }

  lemma AnotherHandle(hs: Handles, ts: Targets, h: Handle, t: TargetId)
    requires Balanced(hs, ts, None) && h in hs && t in ts && ts[t].strong > One(hs[h] == Some(t))
    ensures exists k :: k in hs && k != h && hs[k] == Some(t)
  {
    assert Pointing(hs, t) - {h} != {} by { assert Pointing(hs, t) <= (Pointing(hs, t) - {h}) + {h}; }
    var k :| k in Pointing(hs, t) - {h};
    assert k in hs && hs[k] == Some(t);
  }

  /** `p = std::move(p->next)` fails exactly if `p` is the only handle on its target. */
  lemma AdvanceFailsIff(hs: Handles, ts: Targets, p: Handle, next: Handle)
    requires Balanced(hs, ts, None) && Whole(ts) && p in hs && next in hs
    requires p.Variable? && next.Member? && hs[p] == Some(next.owner)
    ensures Lost(hs[p := None], next) <==> ts[next.owner].strong == 1
  {
    var t := next.owner;
    if ts[t].strong > 1 {
      SharedMoveIsSafe(hs, ts, p);
    } else {
      var hs' := hs[p := None];
      PointingPut(hs, p, None, t);
      assert Pointing(hs', t) == {};
      forall S | t in S ensures !Supported(hs', S) {
        assert forall k | k in hs' && hs'[k] == Some(t) :: k in Pointing(hs', t);
      }
    }
  }
}
