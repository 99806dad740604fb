/** The runtime registry under concurrent registration and lookup (registry.cc). */
module Registry {
  import opened Core
  import opened Devices

  type Tid = nat
  type RuntimeId = nat

  /** The device type each runtime reports; it does not change. */
  type Kinds = RuntimeId -> DeviceType

  type Runtimes = map<DeviceType, RuntimeId>

  // ----- One operation at a time

  /** `RuntimeRegistry` as one thread sees it. */
  class RuntimeRegistry {
    var runtimes: Runtimes

    /** Every key is a valid type, and the one its runtime reports. */
    ghost predicate Valid(kinds: Kinds)
      reads this
    {
      Matching(kinds, runtimes)
    }

    constructor (ghost kinds: Kinds)
      ensures Valid(kinds) && runtimes == map[]
    {
      runtimes := map[];
    }

    /** `register_runtime`; the result is the error code, if any. */
    method Register(kinds: Kinds, runtime: Option<RuntimeId>) returns (failure: Option<ErrorCode>)
      requires Valid(kinds)
      modifies this
      ensures Valid(kinds)
      ensures runtime.None? || !IsValidType(kinds(runtime.value)) ==> failure == Some(InvalidArgument)
      ensures runtime.Some? && IsValidType(kinds(runtime.value)) ==>
                failure == if kinds(runtime.value) in old(runtimes) then Some(AlreadyExists) else None
      ensures failure == RegisterFailure(kinds, old(runtimes), runtime)
      ensures runtimes == if failure.None? then old(runtimes)[kinds(runtime.value) := runtime.value] else old(runtimes)
    {
      if runtime == None { return Some(InvalidArgument); }
      var kind := kinds(runtime.value);
      if !IsValidType(kind) { return Some(InvalidArgument); }
      if kind in runtimes { return Some(AlreadyExists); }
      runtimes := runtimes[kind := runtime.value];
      return None;
    }

    /** `get` */
    method Get(ghost kinds: Kinds, kind: DeviceType) returns (r: Result<RuntimeId>)
      requires Valid(kinds)
      ensures r == Lookup(runtimes, kind)
      ensures r.Ok? ==> r.value in runtimes.Values && kinds(r.value) == kind
      ensures r.Err? ==> forall k | k in runtimes :: kinds(runtimes[k]) != kind
      ensures r.Err? ==> r.code == if IsValidType(kind) then Unavailable else InvalidArgument
    {
      if !IsValidType(kind) { return Err(InvalidArgument); }
      if kind !in runtimes { return Err(Unavailable); }
      return Ok(runtimes[kind]);
    }
  }

  predicate Matching(kinds: Kinds, runtimes: Runtimes) {
    forall k | k in runtimes :: IsValidType(k) && kinds(runtimes[k]) == k
  }

  function RegisterFailure(kinds: Kinds, runtimes: Runtimes, runtime: Option<RuntimeId>): (failure: Option<ErrorCode>)
    ensures failure.None? ==> runtime.Some?
  {
    if runtime.None? || !IsValidType(kinds(runtime.value)) then Some(InvalidArgument)
    else if kinds(runtime.value) in runtimes then Some(AlreadyExists)
    else None
  }

  function Lookup(runtimes: Runtimes, kind: DeviceType): Result<RuntimeId> {
    if !IsValidType(kind) then Err(InvalidArgument)
    else if kind in runtimes then Ok(runtimes[kind])
    else Err(Unavailable)
  }

  // ----- Any number of threads

  /** What a thread does next; `R` points belong to `register_runtime`, `G` points to `get`. */
  datatype Point =
    | RLock(r: RuntimeId)
    | RContains(r: RuntimeId)
    | REmplace(r: RuntimeId)
    | RWriting(r: RuntimeId)
    | RUnlock(r: RuntimeId)
    | GLock(kind: DeviceType)
    | GFind(kind: DeviceType)
    | GRead(kind: DeviceType)
    | GUnlock(kind: DeviceType)

  /** The results of the calls, with the calling thread, in the order in which they are settled. */
  datatype Entry =
    | Registered(caller: Tid, runtime: Option<RuntimeId>, failure: Option<ErrorCode>)
    | Got(caller: Tid, kind: DeviceType, result: Result<RuntimeId>)

  /** `raced` records an access to the map while another thread is writing it, or a write under a reader. */
  datatype State = State(
    runtimes: Runtimes,
    exclusive: Option<Tid>, shared: set<Tid>,
    ops: map<Tid, Point>,
    raced: bool,
    log: seq<Entry>)

  const INIT := State(map[], None, {}, map[], false, [])

  datatype Action = StartRegister(runtime: Option<RuntimeId>) | StartGet(kind: DeviceType) | Resume

  predicate Enabled(s: State, t: Tid, a: Action) {
    if !a.Resume? then t !in s.ops
    else
      t in s.ops
      && (s.ops[t].RLock? ==> s.exclusive == None && s.shared == {})
      && (s.ops[t].GLock? ==> s.exclusive == None)
  }

  /** Another thread is in the middle of `emplace`. */
  predicate SomeoneWrites(s: State, t: Tid) { exists u | u in s.ops && u != t :: s.ops[u].RWriting? }

  /** Another thread is between `contains` or `find` and the use of the answer. */
  predicate SomeoneReads(s: State, t: Tid) {
    exists u | u in s.ops && u != t :: s.ops[u].GRead? || s.ops[u].REmplace?
  }

  function Goto(s: State, t: Tid, p: Point): State { s.(ops := s.ops[t := p]) }

  function Settle(s: State, e: Entry): State { s.(log := s.log + [e]) }

  function Apply(kinds: Kinds, s: State, t: Tid, a: Action): State
    requires Enabled(s, t, a)
  {
    match a
    case StartRegister(runtime) =>
      if runtime.None? || !IsValidType(kinds(runtime.value)) then
        Settle(s, Registered(t, runtime, Some(InvalidArgument)))
      else
        Goto(s, t, RLock(runtime.value))
    case StartGet(kind) =>
      if !IsValidType(kind) then Settle(s, Got(t, kind, Err(InvalidArgument))) else Goto(s, t, GLock(kind))
    case Resume =>
      match s.ops[t]
      case RLock(r) => Goto(s.(exclusive := Some(t)), t, RContains(r))
      case RContains(r) =>
        var s1 := s.(raced := s.raced || SomeoneWrites(s, t));
        if kinds(r) in s.runtimes then Goto(Settle(s1, Registered(t, Some(r), Some(AlreadyExists))), t, RUnlock(r))
        else Goto(s1, t, REmplace(r))
      case REmplace(r) =>
        Goto(s.(raced := s.raced || SomeoneWrites(s, t) || SomeoneReads(s, t)), t, RWriting(r))
      case RWriting(r) =>
        // `emplace` keeps an element that is already there; the call reports success either way
        var runtimes := if kinds(r) in s.runtimes then s.runtimes else s.runtimes[kinds(r) := r];
        Goto(Settle(s.(runtimes := runtimes), Registered(t, Some(r), None)), t, RUnlock(r))
      case RUnlock(_) => s.(exclusive := None, ops := s.ops - {t})
      case GLock(kind) => Goto(s.(shared := s.shared + {t}), t, GFind(kind))
      case GFind(kind) =>
        var s1 := s.(raced := s.raced || SomeoneWrites(s, t));
        if kind in s.runtimes then Goto(s1, t, GRead(kind))
        else Goto(Settle(s1, Got(t, kind, Err(Unavailable))), t, GUnlock(kind))
      case GRead(kind) =>
        var s1 := s.(raced := s.raced || SomeoneWrites(s, t) || kind !in s.runtimes);
        var result := if kind in s.runtimes then Ok(s.runtimes[kind]) else Err(Unavailable);
        Goto(Settle(s1, Got(t, kind, result)), t, GUnlock(kind))
      case GUnlock(_) => s.(shared := s.shared - {t}, ops := s.ops - {t})
  }

  // ----- What the log must look like

  /** The result is what the one-thread registry answers. */
  predicate Fits(kinds: Kinds, before: Runtimes, e: Entry) {
    match e
    case Registered(_, runtime, failure) => failure == RegisterFailure(kinds, before, runtime)
    case Got(_, kind, result) => result == Lookup(before, kind)
  }

  /** The registry after a settled call: a successful registration adds its runtime. */
  function Grown(kinds: Kinds, before: Runtimes, e: Entry): Runtimes {
    if e.Registered? && e.failure.None? && e.runtime.Some? then before[kinds(e.runtime.value) := e.runtime.value]
    else before
  }

  /** The registry after all settled calls. */
  function Contents(kinds: Kinds, log: seq<Entry>): Runtimes {
    if log == [] then map[]
    else Grown(kinds, Contents(kinds, log[..|log| - 1]), log[|log| - 1])
  }

  /** Every result is what the one-thread registry would have answered at that moment. */
  predicate Linear(kinds: Kinds, log: seq<Entry>) {
    log == []
    || (Linear(kinds, log[..|log| - 1]) && Fits(kinds, Contents(kinds, log[..|log| - 1]), log[|log| - 1]))
  }

  // ----- The invariant

  predicate HoldsExclusive(p: Point) { p.RContains? || p.REmplace? || p.RWriting? || p.RUnlock? }
  predicate HoldsShared(p: Point) { p.GFind? || p.GRead? || p.GUnlock? }

  /** What a thread at point `p` knows. */
  predicate Knows(kinds: Kinds, s: State, t: Tid, p: Point) {
    && (HoldsExclusive(p) <==> s.exclusive == Some(t))
    && (HoldsShared(p) <==> t in s.shared)
    && (p.RLock? || HoldsExclusive(p) ==> IsValidType(kinds(p.r)))
    && (p.GLock? || HoldsShared(p) ==> IsValidType(p.kind))
    && (p.REmplace? || p.RWriting? ==> kinds(p.r) !in s.runtimes)
    && (p.GRead? ==> p.kind in s.runtimes)
  }

  ghost predicate Inv(kinds: Kinds, s: State) {
    && !s.raced
    && (s.exclusive.Some? ==> s.shared == {} && s.exclusive.value in s.ops)
    && s.shared <= s.ops.Keys
    && (forall t | t in s.ops :: Knows(kinds, s, t, s.ops[t]))
    && Linear(kinds, s.log) && s.runtimes == Contents(kinds, s.log)
  }

  lemma Settled(kinds: Kinds, log: seq<Entry>, e: Entry)
    ensures Linear(kinds, log + [e]) <==> Linear(kinds, log) && Fits(kinds, Contents(kinds, log), e)
    ensures Contents(kinds, log + [e]) == Grown(kinds, Contents(kinds, log), e)
  {
    assert (log + [e])[..|log + [e]| - 1] == log;
  }

  /** The holder of the exclusive lock is alone with the map. */
  lemma Alone(kinds: Kinds, s: State, t: Tid)
    requires Inv(kinds, s) && t in s.ops
    ensures HoldsExclusive(s.ops[t]) ==>
              forall u | u in s.ops && u != t :: !HoldsExclusive(s.ops[u]) && !HoldsShared(s.ops[u])
    ensures HoldsShared(s.ops[t]) ==> forall u | u in s.ops :: !HoldsExclusive(s.ops[u])
  {
    hide Linear, Contents;
    assert Knows(kinds, s, t, s.ops[t]);
    forall u | u in s.ops ensures Knows(kinds, s, u, s.ops[u]) { }
  }

  lemma StepKeepsInv(kinds: Kinds, s: State, t: Tid, a: Action)
    requires Inv(kinds, s) && Enabled(s, t, a)
    ensures Inv(kinds, Apply(kinds, s, t, a))
  {
    hide Linear, Contents, Fits, Grown, Apply, Enabled, Knows;
    LogStep(kinds, s, t, a);
    LockStep(kinds, s, t, a);
    NoRace(kinds, s, t, a);
  }

  /** Every step adds at most one result to the log, and the right one. */
  lemma LogStep(kinds: Kinds, s: State, t: Tid, a: Action)
    requires Inv(kinds, s) && Enabled(s, t, a)
    ensures var s' := Apply(kinds, s, t, a); Linear(kinds, s'.log) && s'.runtimes == Contents(kinds, s'.log)
  {
    hide Linear, Contents;
    var s' := Apply(kinds, s, t, a);
    if t in s.ops { assert Knows(kinds, s, t, s.ops[t]); }
    if |s'.log| > |s.log| {
      var e := s'.log[|s.log|];
      assert s'.log == s.log + [e];
      Settled(kinds, s.log, e);
    }
  }

  lemma LockStep(kinds: Kinds, s: State, t: Tid, a: Action)
    requires Inv(kinds, s) && Enabled(s, t, a)
    ensures var s' := Apply(kinds, s, t, a);
      && (s'.exclusive.Some? ==> s'.shared == {} && s'.exclusive.value in s'.ops)
      && s'.shared <= s'.ops.Keys
      && forall u | u in s'.ops :: Knows(kinds, s', u, s'.ops[u])
  {
    hide Linear, Contents, SomeoneWrites, SomeoneReads, Fits, Grown;
    var s' := Apply(kinds, s, t, a);
    if t in s.ops { Alone(kinds, s, t); assert Knows(kinds, s, t, s.ops[t]); }
    forall u | u in s'.ops ensures Knows(kinds, s', u, s'.ops[u]) {
      if u != t { OthersKnow(kinds, s, t, a, u); }
    }
  }

  lemma OthersKnow(kinds: Kinds, s: State, t: Tid, a: Action, u: Tid)
    requires Inv(kinds, s) && Enabled(s, t, a) && u != t && u in Apply(kinds, s, t, a).ops
    ensures Knows(kinds, Apply(kinds, s, t, a), u, Apply(kinds, s, t, a).ops[u])
  {
    hide Linear, Contents, SomeoneWrites, SomeoneReads, Fits, Grown;
    if t in s.ops { Alone(kinds, s, t); assert Knows(kinds, s, t, s.ops[t]); }
    assert u in s.ops && Knows(kinds, s, u, s.ops[u]);
  }

  lemma NoRace(kinds: Kinds, s: State, t: Tid, a: Action)
    requires Inv(kinds, s) && Enabled(s, t, a)
    ensures !Apply(kinds, s, t, a).raced
  {
    hide Linear, Contents, Fits, Grown;
    if t in s.ops { Alone(kinds, s, t); assert Knows(kinds, s, t, s.ops[t]); }
  }

  // ----- Runs

  datatype History = Start | More(prev: History, t: Tid, a: Action)

  ghost predicate Legal(kinds: Kinds, h: History) {
    h.More? ==> Legal(kinds, h.prev) && Enabled(Last(kinds, h.prev), h.t, h.a)
  }

  ghost function Last(kinds: Kinds, h: History): State {
    if h.Start? then INIT
    else if Enabled(Last(kinds, h.prev), h.t, h.a) then Apply(kinds, Last(kinds, h.prev), h.t, h.a)
    else Last(kinds, h.prev)
  }

  lemma {:induction false} ReachableInv(kinds: Kinds, h: History)
    requires Legal(kinds, h)
    ensures Inv(kinds, Last(kinds, h))
  {
    hide Inv, Apply, Enabled;
    if h.More? {
      ReachableInv(kinds, h.prev);
      StepKeepsInv(kinds, Last(kinds, h.prev), h.t, h.a);
    } else {
      InitInv(kinds);
    }
  }

  lemma InitInv(kinds: Kinds) ensures Inv(kinds, INIT) { }

  /**
   In every run the map is never accessed during a write, and the results are those of the one-thread
   registry for the calls in the order in which they were settled.
   */
  lemma RegistryIsLinearizable(kinds: Kinds, h: History)
    requires Legal(kinds, h)
    ensures var s := Last(kinds, h);
      !s.raced && Linear(kinds, s.log) && s.runtimes == Contents(kinds, s.log)
  {
    ReachableInv(kinds, h);
  }

  // ----- Each call is settled once, between its start and its end

  /** The settled calls of `t`. */
  function SettledBy(t: Tid, log: seq<Entry>): seq<Entry> {
    if log == [] then []
    else
      var e := log[|log| - 1];
      SettledBy(t, log[..|log| - 1]) + if e.caller == t then [e] else []
  }

  lemma SettledByAppend(t: Tid, log: seq<Entry>, e: Entry)
    ensures SettledBy(t, log + [e]) == SettledBy(t, log) + if e.caller == t then [e] else []
  {
    assert (log + [e])[..|log + [e]| - 1] == log;
  }

  /** The run `h` ends with the first step of a call of `t`; `k` continues it at most to the last step of the call. */
  ghost predicate During(kinds: Kinds, t: Tid, h: History, k: History) {
    k == h || (k.More? && During(kinds, t, h, k.prev) && t in Last(kinds, k.prev).ops)
  }

  /** The entry of the log is the result of the call of `t` that the action starts. */
  predicate Settles(e: Entry, t: Tid, a: Action) {
    e.caller == t
    && match a
       case StartRegister(runtime) => e.Registered? && e.runtime == runtime
       case StartGet(kind) => e.Got? && e.kind == kind
       case Resume => false
  }

  /** A point of the call that the action starts. */
  predicate PartOf(p: Point, a: Action) {
    match a
    case StartRegister(runtime) => (p.RLock? || HoldsExclusive(p)) && runtime == Some(p.r)
    case StartGet(kind) => (p.GLock? || HoldsShared(p)) && kind == p.kind
    case Resume => false
  }

  /** What is left of a call: only the release of its lock, which comes after its settlement. */
  predicate Unlocking(s: State, t: Tid) { t in s.ops && (s.ops[t].RUnlock? || s.ops[t].GUnlock?) }

  lemma StartSettles(kinds: Kinds, s: State, t: Tid, a: Action)
    requires Enabled(s, t, a) && !a.Resume?
    ensures var s' := Apply(kinds, s, t, a);
      if t in s'.ops then s'.log == s.log && PartOf(s'.ops[t], a) && !Unlocking(s', t)
      else |s'.log| == |s.log| + 1 && s'.log == s.log + [s'.log[|s.log|]] && Settles(s'.log[|s.log|], t, a)
  {
  }

  lemma ResumeStays(kinds: Kinds, s: State, t: Tid, a: Action)
    requires t in s.ops && Enabled(s, t, Resume) && PartOf(s.ops[t], a)
    ensures var s' := Apply(kinds, s, t, Resume);
      && (t in s'.ops ==> PartOf(s'.ops[t], a))
      && (t !in s'.ops <==> Unlocking(s, t))
  {
    hide SomeoneWrites, SomeoneReads;
  }

  lemma ResumeSettles(kinds: Kinds, s: State, t: Tid, a: Action)
    requires t in s.ops && Enabled(s, t, Resume) && PartOf(s.ops[t], a)
    ensures var s' := Apply(kinds, s, t, Resume);
      if !Unlocking(s, t) && Unlocking(s', t) then
        |s'.log| == |s.log| + 1 && s'.log == s.log + [s'.log[|s.log|]] && Settles(s'.log[|s.log|], t, a)
      else
        s'.log == s.log
  {
    hide SomeoneWrites, SomeoneReads;
  }

  /** A step settles at most one call, of its own thread. */
  lemma StepSettlesOwn(kinds: Kinds, s: State, u: Tid, a: Action)
    requires Enabled(s, u, a)
    ensures var log := Apply(kinds, s, u, a).log;
      log == s.log || (|log| == |s.log| + 1 && log == s.log + [log[|s.log|]] && log[|s.log|].caller == u)
  {
    hide SomeoneWrites, SomeoneReads;
  }

  /** Other threads neither advance the call nor settle it. */
  lemma OthersSettle(kinds: Kinds, s: State, u: Tid, a: Action, t: Tid)
    requires Enabled(s, u, a) && u != t
    ensures var s' := Apply(kinds, s, u, a);
      && (t in s'.ops <==> t in s.ops) && (t in s.ops ==> s'.ops[t] == s.ops[t])
      && SettledBy(t, s'.log) == SettledBy(t, s.log)
  {
    OthersKeepPoint(kinds, s, u, a, t);
    hide Apply, SettledBy;
    var log := Apply(kinds, s, u, a).log;
    StepSettlesOwn(kinds, s, u, a);
    if log != s.log { SettledByAppend(t, s.log, log[|s.log|]); }
  }

  lemma OthersKeepPoint(kinds: Kinds, s: State, u: Tid, a: Action, t: Tid)
    requires Enabled(s, u, a) && u != t
    ensures var s' := Apply(kinds, s, u, a);
      (t in s'.ops <==> t in s.ops) && (t in s.ops ==> s'.ops[t] == s.ops[t])
  {
    hide SomeoneWrites, SomeoneReads;
  }

  /**
   A call settles exactly one result of its own, after it has started and before it ends: the order of
   the log agrees with the real time order of the calls.
   */
  lemma {:induction false} CallSettlesOnce(kinds: Kinds, h: History, t: Tid, a: Action, k: History)
      returns (own: seq<Entry>)
    requires Legal(kinds, k) && !a.Resume? && During(kinds, t, More(h, t, a), k)
    ensures var s := Last(kinds, k);
      && (t in s.ops ==> PartOf(s.ops[t], a))
      && SettledBy(t, s.log) == SettledBy(t, Last(kinds, h).log) + own
      && |own| == (if t !in s.ops || Unlocking(s, t) then 1 else 0)
      && forall e | e in own :: Settles(e, t, a)
  {
    hide Apply, SettledBy, PartOf;
    if k == More(h, t, a) {
      var s, s' := Last(kinds, h), Last(kinds, k);
      StartSettles(kinds, s, t, a);
      own := s'.log[|s.log|..];
      if t !in s'.ops {
        assert own == [s'.log[|s.log|]];
        SettledByAppend(t, s.log, own[0]);
      }
    } else {
      var s, s' := Last(kinds, k.prev), Last(kinds, k);
      own := CallSettlesOnce(kinds, h, t, a, k.prev);
      if k.t != t {
        OthersSettle(kinds, s, k.t, k.a, t);
      } else {
        ResumeStays(kinds, s, t, a);
        ResumeSettles(kinds, s, t, a);
        if !Unlocking(s, t) && Unlocking(s', t) {
          own := [s'.log[|s.log|]];
          SettledByAppend(t, s.log, own[0]);
        }
      }
    }
  }

  /** The run `k` continues the run `h`. */
  ghost predicate Continues(h: History, k: History) { k == h || (k.More? && Continues(h, k.prev)) }

  /** What has been settled stays settled, so a runtime found once is found by every later lookup. */
  lemma {:induction false} SettledStays(kinds: Kinds, h: History, k: History)
    requires Legal(kinds, k) && Continues(h, k)
    ensures Last(kinds, h).log <= Last(kinds, k).log
    ensures forall t | t in Last(kinds, h).runtimes ::
              t in Last(kinds, k).runtimes && Last(kinds, k).runtimes[t] == Last(kinds, h).runtimes[t]
  {
    hide Linear, Contents, Apply, Enabled, Inv;
    if k != h {
      SettledStays(kinds, h, k.prev);
      ReachableInv(kinds, k.prev);
      StepOnlyAdds(kinds, Last(kinds, k.prev), k.t, k.a);
    }
  }

  lemma StepOnlyAdds(kinds: Kinds, s: State, t: Tid, a: Action)
    requires Inv(kinds, s) && Enabled(s, t, a)
    ensures var s' := Apply(kinds, s, t, a);
      && s.log <= s'.log
      && forall k | k in s.runtimes :: k in s'.runtimes && s'.runtimes[k] == s.runtimes[k]
  {
    hide Linear, Contents, SomeoneWrites, SomeoneReads;
    if t in s.ops { assert Knows(kinds, s, t, s.ops[t]); }
  }

  // ----- Write once

  /** Every key is a valid type and the type its runtime reports. */
  lemma {:induction false} KeysMatch(kinds: Kinds, log: seq<Entry>)
    requires Linear(kinds, log)
    ensures Matching(kinds, Contents(kinds, log))
  {
    if log != [] { KeysMatch(kinds, log[..|log| - 1]); }
  }

  /** Once a type has a runtime it keeps it. */
  lemma {:induction false} ContentsGrow(kinds: Kinds, log: seq<Entry>, n: nat, k: DeviceType)
    requires Linear(kinds, log) && n <= |log| && k in Contents(kinds, log[..n])
    ensures k in Contents(kinds, log) && Contents(kinds, log)[k] == Contents(kinds, log[..n])[k]
  {
    if n == |log| {
      assert log[..n] == log;
    } else {
      var before := log[..|log| - 1];
      assert before[..n] == log[..n];
      ContentsGrow(kinds, before, n, k);
    }
  }

  /** The entry records a successful registration for the type `k`. */
  predicate Wins(kinds: Kinds, e: Entry, k: DeviceType) {
    e.Registered? && e.failure.None? && e.runtime.Some? && kinds(e.runtime.value) == k
  }

  /** A result settled at position `n` is the answer of the contents at that moment. */
  lemma {:induction false} EntryAt(kinds: Kinds, log: seq<Entry>, n: nat)
    requires Linear(kinds, log) && n < |log|
    ensures Linear(kinds, log[..n])
    ensures Fits(kinds, Contents(kinds, log[..n]), log[n])
    ensures Contents(kinds, log[..n + 1]) == Grown(kinds, Contents(kinds, log[..n]), log[n])
  {
    assert log[..n + 1][..n] == log[..n];
    if n + 1 < |log| {
      EntryAt(kinds, log[..|log| - 1], n);
      assert log[..|log| - 1][..n] == log[..n];
      assert log[..|log| - 1][..n + 1] == log[..n + 1];
    } else {
      assert log[..n + 1] == log && log[..|log| - 1] == log[..n];
    }
  }

  /**
   For each type at most one registration succeeds; every valid registration settled after it is told
   so, every lookup settled after it returns its runtime, and every lookup before it finds nothing.
   */
  lemma WriteOnce(kinds: Kinds, log: seq<Entry>, n: nat, m: nat, k: DeviceType)
    requires Linear(kinds, log) && n < |log| && m < |log| && n != m && Wins(kinds, log[n], k)
    ensures !Wins(kinds, log[m], k)
    ensures m > n && log[m].Registered? && log[m].runtime.Some? && kinds(log[m].runtime.value) == k
        ==> log[m].failure == Some(AlreadyExists)
    ensures log[m].Got? && log[m].kind == k ==>
              log[m].result == if m > n then Ok(log[n].runtime.value) else Err(Unavailable)
  {
    EntryAt(kinds, log, n);
    EntryAt(kinds, log, m);
    if m > n {
      assert log[..m][..n + 1] == log[..n + 1];
      ContentsGrow(kinds, log[..m], n + 1, k);
    } else {
      assert log[..n][..m] == log[..m];
      if k in Contents(kinds, log[..m]) { ContentsGrow(kinds, log[..n], m, k); }
      if Wins(kinds, log[m], k) {
        assert log[..n][..m + 1] == log[..m + 1];
        ContentsGrow(kinds, log[..n], m + 1, k);
      }
    }
  }

  /** A type for which a valid registration has been settled has a runtime, put there by one that succeeded. */
  lemma {:induction false} SomeoneWins(kinds: Kinds, log: seq<Entry>, k: DeviceType)
    requires Linear(kinds, log)
    ensures k in Contents(kinds, log) <==> exists n | 0 <= n < |log| :: Wins(kinds, log[n], k)
    ensures (exists n | 0 <= n < |log| :: log[n].Registered? && log[n].runtime.Some? && kinds(log[n].runtime.value) == k
                                         && IsValidType(k)) ==> k in Contents(kinds, log)
  {
    if log != [] {
      var before, e := log[..|log| - 1], log[|log| - 1];
      SomeoneWins(kinds, before, k);
      if n :| 0 <= n < |before| && Wins(kinds, before[n], k) { assert Wins(kinds, log[n], k); }
      if Wins(kinds, e, k) { assert Wins(kinds, log[|log| - 1], k); }
      if n :| 0 <= n < |log| && log[n].Registered? && log[n].runtime.Some? && kinds(log[n].runtime.value) == k
              && IsValidType(k) {
        if n < |before| { assert before[n] == log[n]; }
      }
      if n :| 0 <= n < |log| && Wins(kinds, log[n], k) {
        if n < |before| { assert Wins(kinds, before[n], k); }
      }
    }
  }

  // ----- Every call ends

  /** No waiting for ever: in every run some thread that is in a call can go on. */
  lemma NoDeadlock(kinds: Kinds, h: History) returns (t: Tid)
    requires Legal(kinds, h) && Last(kinds, h).ops != map[]
    ensures Enabled(Last(kinds, h), t, Resume)
  {
    hide Linear, Contents, Last, Legal;
    ReachableInv(kinds, h);
    var s := Last(kinds, h);
    if s.exclusive.Some? {
      t := s.exclusive.value;
    } else if s.shared != {} {
      t :| t in s.shared;
    } else {
      t :| t in s.ops.Keys;
    }
    assert Knows(kinds, s, t, s.ops[t]);
  }

  function Step(h: History, t: Tid): History { More(h, t, Resume) }

  function Steps(h: History): nat { if h.Start? then 0 else 1 + Steps(h.prev) }

  /** After the run `h` only `t` makes steps, inside one call. */
  ghost predicate Solo(kinds: Kinds, t: Tid, h: History, k: History) {
    k == h || (k.More? && k == Step(k.prev, t) && t in Last(kinds, k.prev).ops && Solo(kinds, t, h, k.prev))
  }

  /** How many steps a call still needs once it can have the lock. */
  function Rank(p: Point): nat {
    match p
    case RLock(_) => 5
    case RContains(_) => 4
    case REmplace(_) => 3
    case RWriting(_) => 2
    case RUnlock(_) => 1
    case GLock(_) => 4
    case GFind(_) => 3
    case GRead(_) => 2
    case GUnlock(_) => 1
  }

  lemma SoloStep(kinds: Kinds, s: State, t: Tid)
    requires t in s.ops && Enabled(s, t, Resume)
    ensures var s' := Apply(kinds, s, t, Resume);
      t in s'.ops ==> Rank(s'.ops[t]) < Rank(s.ops[t]) && Enabled(s', t, Resume)
  {
    hide SomeoneWrites, SomeoneReads;
  }

  /** From any moment of any run, a call that does not have to wait for the lock ends within five of its own steps. */
  lemma {:induction false} CallEnds(kinds: Kinds, h: History, t: Tid) returns (k: History)
    requires Legal(kinds, h) && t in Last(kinds, h).ops && Enabled(Last(kinds, h), t, Resume)
    ensures Legal(kinds, k) && Solo(kinds, t, h, k) && t !in Last(kinds, k).ops
    ensures Steps(k) <= Steps(h) + Rank(Last(kinds, h).ops[t]) <= Steps(h) + 5
    decreases Rank(Last(kinds, h).ops[t])
  {
    hide Apply, Enabled;
    k := Step(h, t);
    SoloStep(kinds, Last(kinds, h), t);
    if t in Last(kinds, k).ops { k := CallEnds(kinds, k, t); }
    SoloFrom(kinds, t, h, k);
  }

  lemma {:induction false} SoloFrom(kinds: Kinds, t: Tid, h: History, k: History)
    requires t in Last(kinds, h).ops && Solo(kinds, t, Step(h, t), k)
    ensures Solo(kinds, t, h, k)
  {
    hide Last;
    if k != Step(h, t) { SoloFrom(kinds, t, h, k.prev); }
  }

  lemma Goes(kinds: Kinds, h: History, t: Tid, a: Action, s': State)
    requires Legal(kinds, h) && Enabled(Last(kinds, h), t, a) && Apply(kinds, Last(kinds, h), t, a) == s'
    ensures Legal(kinds, More(h, t, a)) && Last(kinds, More(h, t, a)) == s'
  {
  }

  /** The state with `t` at the point `p`, holding the exclusive lock. */
  function Writer(s: State, t: Tid, p: Point): State { s.(ops := s.ops[t := p], exclusive := Some(t)) }

  /** The state with `t` at the point `p`, among the readers. */
  function Reader(s: State, t: Tid, p: Point): State { s.(ops := s.ops[t := p], shared := s.shared + {t}) }

  /** A holder of the lock can go on, and does not race. */
  lemma Unraced(kinds: Kinds, s: State, t: Tid)
    requires Inv(kinds, s) && t in s.ops && (s.exclusive == Some(t) || t in s.shared)
    ensures !s.raced && Enabled(s, t, Resume) && !Apply(kinds, s, t, Resume).raced
  {
    hide Linear, Contents;
    assert Knows(kinds, s, t, s.ops[t]);
    NoRace(kinds, s, t, Resume);
    hide Apply;
  }

  lemma RegisterSteps(kinds: Kinds, s: State, t: Tid, r: RuntimeId, p: Point)
    requires t !in s.ops && s.exclusive == None && Inv(kinds, Writer(s, t, p))
    ensures var w := Writer(s, t, p);
      Enabled(w, t, Resume)
      && var s' := Apply(kinds, w, t, Resume);
         && (p == RContains(r) ==>
               s' == if kinds(r) in s.runtimes
                     then Writer(Settle(s, Registered(t, Some(r), Some(AlreadyExists))), t, RUnlock(r))
                     else Writer(s, t, REmplace(r)))
         && (p == REmplace(r) ==> s' == Writer(s, t, RWriting(r)))
         && (p == RWriting(r) && kinds(r) !in s.runtimes ==>
               var s1 := Settle(s, Registered(t, Some(r), None)).(runtimes := s.runtimes[kinds(r) := r]);
               s' == Writer(s1, t, RUnlock(r)))
         && (p == RUnlock(r) ==> s' == s)
  {
    hide Inv, SomeoneWrites, SomeoneReads;
    var w := Writer(s, t, p);
    assert w.ops[t] == p;
    Unraced(kinds, w, t);
    assert w.ops - {t} == s.ops;
  }

  /** A registration that finds the lock free, left alone, is settled as its type demands. */
  lemma RegisterAlone(kinds: Kinds, h: History, t: Tid, r: RuntimeId) returns (k: History)
    requires Legal(kinds, h) && t !in Last(kinds, h).ops && IsValidType(kinds(r))
    requires Last(kinds, h).exclusive == None && Last(kinds, h).shared == {}
    ensures Legal(kinds, k) && Solo(kinds, t, More(h, t, StartRegister(Some(r))), k)
    ensures var s := Last(kinds, h);
      Last(kinds, k)
      == if kinds(r) in s.runtimes then s.(log := s.log + [Registered(t, Some(r), Some(AlreadyExists))])
         else s.(log := s.log + [Registered(t, Some(r), None)], runtimes := s.runtimes[kinds(r) := r])
  {
    hide Legal, Last, Solo, SomeoneWrites, SomeoneReads, Inv, Writer;
    var s, start := Last(kinds, h), More(h, t, StartRegister(Some(r)));
    Goes(kinds, h, t, StartRegister(Some(r)), Goto(s, t, RLock(r)));
    SoloStart(kinds, t, start);
    LockedBy(kinds, s, t, r);
    k := SoloGoes(kinds, start, start, t, Writer(s, t, RContains(r)));
    ReachableInv(kinds, k);
    RegisterSteps(kinds, s, t, r, RContains(r));
    var s1 := Settle(s, Registered(t, Some(r), Some(AlreadyExists)));
    if kinds(r) !in s.runtimes {
      s1 := Settle(s, Registered(t, Some(r), None)).(runtimes := s.runtimes[kinds(r) := r]);
      k := SoloGoes(kinds, start, k, t, Writer(s, t, REmplace(r)));
      ReachableInv(kinds, k);
      RegisterSteps(kinds, s, t, r, REmplace(r));
      k := SoloGoes(kinds, start, k, t, Writer(s, t, RWriting(r)));
      ReachableInv(kinds, k);
      RegisterSteps(kinds, s, t, r, RWriting(r));
    }
    k := SoloGoes(kinds, start, k, t, Writer(s1, t, RUnlock(r)));
    ReachableInv(kinds, k);
    RegisterSteps(kinds, s1, t, r, RUnlock(r));
    k := SoloGoes(kinds, start, k, t, s1);
  }

  lemma LockedBy(kinds: Kinds, s: State, t: Tid, r: RuntimeId)
    requires t !in s.ops && s.exclusive == None && s.shared == {}
    ensures t in Goto(s, t, RLock(r)).ops && Enabled(Goto(s, t, RLock(r)), t, Resume)
    ensures Apply(kinds, Goto(s, t, RLock(r)), t, Resume) == Writer(s, t, RContains(r))
  {
  }

  lemma SoloStart(kinds: Kinds, t: Tid, h: History)
    ensures Solo(kinds, t, h, h)
  {
  }

  lemma SoloGoes(kinds: Kinds, start: History, h: History, t: Tid, s': State) returns (k: History)
    requires Legal(kinds, h) && Enabled(Last(kinds, h), t, Resume) && Apply(kinds, Last(kinds, h), t, Resume) == s'
    requires Solo(kinds, t, start, h)
    ensures k == Step(h, t) && Legal(kinds, k) && Last(kinds, k) == s' && Solo(kinds, t, start, k)
  {
    hide Apply;
    k := Step(h, t);
  }

  lemma GetSteps(kinds: Kinds, s: State, t: Tid, kind: DeviceType, p: Point)
    requires t !in s.ops && t !in s.shared && s.exclusive == None && Inv(kinds, Reader(s, t, p))
    ensures var w := Reader(s, t, p);
      Enabled(w, t, Resume)
      && var s' := Apply(kinds, w, t, Resume);
         && (p == GFind(kind) ==>
               s' == if kind in s.runtimes then Reader(s, t, GRead(kind))
                     else Reader(Settle(s, Got(t, kind, Err(Unavailable))), t, GUnlock(kind)))
         && (p == GRead(kind) && kind in s.runtimes ==>
               s' == Reader(Settle(s, Got(t, kind, Ok(s.runtimes[kind]))), t, GUnlock(kind)))
         && (p == GUnlock(kind) ==> s' == s)
  {
    hide Inv, SomeoneWrites, SomeoneReads;
    var w := Reader(s, t, p);
    assert w.ops[t] == p;
    Unraced(kinds, w, t);
    assert w.ops - {t} == s.ops && w.shared - {t} == s.shared;
  }

  lemma SharedBy(kinds: Kinds, s: State, t: Tid, kind: DeviceType)
    requires t !in s.ops && s.exclusive == None
    ensures t in Goto(s, t, GLock(kind)).ops && Enabled(Goto(s, t, GLock(kind)), t, Resume)
    ensures Apply(kinds, Goto(s, t, GLock(kind)), t, Resume) == Reader(s, t, GFind(kind))
  {
  }

  lemma IdleHoldsNothing(kinds: Kinds, h: History, t: Tid)
    requires Legal(kinds, h) && t !in Last(kinds, h).ops
    ensures t !in Last(kinds, h).shared
  {
    hide Linear, Contents, Last, Legal;
    ReachableInv(kinds, h);
  }

  /** A lookup that no writer keeps waiting, left alone beside any readers, returns the runtime of the type. */
  lemma GetAlone(kinds: Kinds, h: History, t: Tid, kind: DeviceType) returns (k: History)
    requires Legal(kinds, h) && t !in Last(kinds, h).ops && IsValidType(kind) && Last(kinds, h).exclusive == None
    ensures Legal(kinds, k) && Solo(kinds, t, More(h, t, StartGet(kind)), k)
    ensures var s := Last(kinds, h);
      var result := if kind in s.runtimes then Ok(s.runtimes[kind]) else Err(Unavailable);
      Last(kinds, k) == s.(log := s.log + [Got(t, kind, result)])
  {
    hide Legal, Last, Solo, SomeoneWrites, SomeoneReads, Inv, Reader;
    var s, start := Last(kinds, h), More(h, t, StartGet(kind));
    IdleHoldsNothing(kinds, h, t);
    Goes(kinds, h, t, StartGet(kind), Goto(s, t, GLock(kind)));
    SoloStart(kinds, t, start);
    SharedBy(kinds, s, t, kind);
    k := SoloGoes(kinds, start, start, t, Reader(s, t, GFind(kind)));
    ReachableInv(kinds, k);
    GetSteps(kinds, s, t, kind, GFind(kind));
    var s1 := Settle(s, Got(t, kind, Err(Unavailable)));
    if kind in s.runtimes {
      s1 := Settle(s, Got(t, kind, Ok(s.runtimes[kind])));
      k := SoloGoes(kinds, start, k, t, Reader(s, t, GRead(kind)));
      ReachableInv(kinds, k);
      GetSteps(kinds, s, t, kind, GRead(kind));
    }
    k := SoloGoes(kinds, start, k, t, Reader(s1, t, GUnlock(kind)));
    ReachableInv(kinds, k);
    GetSteps(kinds, s1, t, kind, GUnlock(kind));
    k := SoloGoes(kinds, start, k, t, s1);
  }

  /** A call with an invalid argument is settled in its first step, whatever the others do. */
  lemma InvalidCalls(kinds: Kinds, s: State, t: Tid, runtime: Option<RuntimeId>, kind: DeviceType)
    requires t !in s.ops
    ensures runtime.None? || !IsValidType(kinds(runtime.value)) ==>
              && Enabled(s, t, StartRegister(runtime))
              && Apply(kinds, s, t, StartRegister(runtime))
                 == s.(log := s.log + [Registered(t, runtime, Some(InvalidArgument))])
    ensures !IsValidType(kind) ==>
              && Enabled(s, t, StartGet(kind))
              && Apply(kinds, s, t, StartGet(kind)) == s.(log := s.log + [Got(t, kind, Err(InvalidArgument))])
  {
  }
}
