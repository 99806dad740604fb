/**
 What intrusive reference counting is meant to do, without counters: every block has a set of strong
 owners and a set of weak owners, and each event changes them at once. An owner is a finished handle,
 or a thread that holds a reference between two of its steps.
 */
module RefCountSpec {
  import opened RefCountMachine

  datatype Owners = Owners(handles: set<Handle>, threads: set<Tid>) {
    predicate Empty() { handles == {} && threads == {} }
  }

  /** The target: its constructor runs; it may be used; its destructor has started, or its constructor threw. */
  datatype Fate = Pending | Usable | Destroyed

  datatype Object = Object(strong: Owners, weak: Owners, fate: Fate, reclaimed: bool)

  type Spec = map<BlockId, Object>

  datatype Event =
    | Silent
    | Create(b: BlockId)
    | Publish(b: BlockId, h: Handle)
    | Abandon(b: BlockId)
    | Retain(b: BlockId, from: Handle, h: Handle)
    | Take(b: BlockId, h: Handle, t: Tid)
    | Give(b: BlockId, t: Tid, h: Handle)
    | Drop(b: BlockId, t: Tid)
    | DropWeak(b: BlockId, t: Tid)
    | Exchange(h: Handle, k: Handle)
    | LockHit(b: BlockId, w: Handle, t: Tid)
    | LockMiss(b: BlockId, w: Handle)
    | Destroy(b: BlockId)
    | Reclaim(b: BlockId)

  const NOBODY := Owners({}, {})

  /** The owners with the names of two handles exchanged. */
  function Renamed(s: set<Handle>, h: Handle, k: Handle): set<Handle> {
    (s - {h, k}) + (if h in s then {k} else {}) + (if k in s then {h} else {})
  }

  function RenamedObject(o: Object, h: Handle, k: Handle): Object {
    o.(strong := o.strong.(handles := Renamed(o.strong.handles, h, k)),
       weak := o.weak.(handles := Renamed(o.weak.handles, h, k)))
  }

  function OwnersOf(o: Object, strong: bool): Owners { if strong then o.strong else o.weak }

  function WithOwners(o: Object, strong: bool, w: Owners): Object {
    if strong then o.(strong := w) else o.(weak := w)
  }

  /** The event `e` may happen in `a` and leads to `a'`. */
  predicate Happens(a: Spec, e: Event, a': Spec) {
    match e
    case Silent => a' == a
    case Create(b) => b !in a && a' == a[b := Object(NOBODY, NOBODY, Pending, false)]
    case Exchange(h, k) => a' == map b | b in a :: RenamedObject(a[b], h, k)
    case _ =>
      e.b in a && Allowed(a[e.b], e) && a' == a[e.b := Effect(a[e.b], e)]
  }

  /** When an event of one object may happen. */
  predicate Allowed(o: Object, e: Event) {
    match e
    case Publish(_, h) => o.fate == Pending && o.strong.Empty() && o.weak.Empty() && h.Strong?
    case Abandon(_) => o.fate == Pending && o.strong.Empty() && o.weak.Empty()
    // a new owner needs an owner to copy from; a strong owner may also create a weak one
    case Retain(_, from, h) =>
      (from in o.strong.handles || (h.Weak? && from in o.weak.handles)) && h !in OwnersOf(o, h.Strong?).handles
    case Take(_, h, t) => h in OwnersOf(o, h.Strong?).handles && t !in OwnersOf(o, h.Strong?).threads
    case Give(_, t, h) => h.Strong? && t in o.strong.threads && h !in o.strong.handles && o.fate == Usable
    case Drop(_, t) => t in o.strong.threads
    case DropWeak(_, t) => t in o.weak.threads
    case LockHit(_, w, t) => w in o.weak.handles && !o.strong.Empty() && o.fate == Usable && t !in o.strong.threads
    case LockMiss(_, w) => w in o.weak.handles && o.strong.Empty() && o.fate != Pending
    case Destroy(_) => o.fate == Usable && o.strong.Empty()
    case Reclaim(_) => o.fate == Destroyed && o.strong.Empty() && o.weak.Empty() && !o.reclaimed
    case _ => false
  }

  function Effect(o: Object, e: Event): Object
    requires Allowed(o, e)
  {
    match e
    case Publish(_, h) => o.(strong := Owners({h}, {}), fate := Usable)
    case Abandon(_) => o.(fate := Destroyed)
    case Retain(_, _, h) =>
      var w := OwnersOf(o, h.Strong?); WithOwners(o, h.Strong?, w.(handles := w.handles + {h}))
    case Take(_, h, t) =>
      var w := OwnersOf(o, h.Strong?); WithOwners(o, h.Strong?, Owners(w.handles - {h}, w.threads + {t}))
    case Give(_, t, h) => o.(strong := Owners(o.strong.handles + {h}, o.strong.threads - {t}))
    case Drop(_, t) => o.(strong := o.strong.(threads := o.strong.threads - {t}))
    case DropWeak(_, t) => o.(weak := o.weak.(threads := o.weak.threads - {t}))
    case LockHit(_, _, t) => o.(strong := o.strong.(threads := o.strong.threads + {t}))
    case LockMiss(_, _) => o
    case Destroy(_) => o.(fate := Destroyed)
    case Reclaim(_) => o.(reclaimed := true)
  }

  /** No strong owner is left and the construction is over. */
  predicate Expired(o: Object) { o.strong.Empty() && o.fate != Pending }

  /** No event brings a strong owner back to an object that has none. */
  lemma ExpiredIsAbsorbing(a: Spec, e: Event, a': Spec, b: BlockId)
    requires Happens(a, e, a') && b in a && Expired(a[b])
    ensures b in a' && Expired(a'[b])
  {
    if e.Exchange? { assert Renamed({}, e.h, e.k) == {}; }
  }

  /**
   What an event may do to an object: it is destroyed only without strong owners, reclaimed only without
   any owners, and a new owner appears only beside another one or on an object just constructed.
   */
  lemma EventsAreSafe(a: Spec, e: Event, a': Spec, b: BlockId)
    requires Happens(a, e, a') && b in a && !e.Exchange?
    ensures b in a'
    ensures a[b].fate == Usable && a'[b].fate != Usable ==> a'[b].fate == Destroyed && a[b].strong == Owners({}, {})
    ensures !a[b].reclaimed && a'[b].reclaimed ==>
              a[b].fate == Destroyed && a[b].strong == a[b].weak == Owners({}, {})
    ensures a[b].reclaimed ==> a'[b].reclaimed
    ensures a[b].strong == Owners({}, {}) && a'[b].strong != Owners({}, {}) ==>
              a[b].fate == Pending && a'[b].fate == Usable
    ensures a[b].weak == Owners({}, {}) && a'[b].weak != Owners({}, {}) ==> a[b].strong.handles != {}
  {
  }

  /** A run of the specification, the latest event outermost. */
  datatype Trace = Initially | Then(prev: Trace, e: Event, a: Spec)

  function Final(r: Trace): Spec {
    match r
    case Initially => map[]
    case Then(_, _, a) => a
  }

  ghost predicate Follows(r: Trace) {
    r.Then? ==> Follows(r.prev) && Happens(Final(r.prev), r.e, r.a)
  }
}
