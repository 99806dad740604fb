# GradyX foundations

This project models the logic of the GradyX foundations and proves properties of the model.

## What is modelled

**Intrusive reference counting** is the main part. `RefCountMachine` is a small-step machine with any
number of threads, handles and control blocks. One step is one atomic access, one dereference, one
`delete`, or one update of handles that the thread owns. Compare-and-swap may fail spuriously,
constructors may throw, counters wrap around like `size_t`. A step that touches freed or destroyed
memory is possible in the machine and sets a flag; that the flag is never set is a theorem.
`RefCountInvariant` and `RefCountSteps` hold the invariant, a table of what the counters must be in each
phase of the life of a target, and its proof step by step. `RefCountSpec` is the meaning of all this
without counters: sets of strong and weak owners that change by indivisible events.
`RefCountRefinement` proves that each machine step is one such event, `RefCountRuns` states the results
over whole runs, and `RefCountProgress` says that every call ends, and what it comes to. `IntrusivePtr` has the handle classes as one thread sees them, with all constructors and
assignments, proved against the number of handles in the pool. There, a target is destroyed exactly when
its last strong handle goes, because the invariant holds before and after every operation.

`OwnedHandles` lets targets own handles: destroying one target may destroy others in a cascade, and the
module characterises what survives it.

**Shapes and checked arithmetic** are `CheckedMath` and `Shape`: overflow tests of any width, element
counts, canonical strides, and what those strides mean for addressing.

**Exact conversion, text and ownership** are `Scalar`, `Device`, `DataPtr`, `CpuAllocator` and `Registry`.
Ownership is a conservation law over any sequence of operations; the registry is a machine whose
threads take the lock, read and write in separate steps.

## Assumptions

- Interleavings are sequentially consistent.
- A handle object is changed by one thread at a time and not while another copies or reads it; a
  handle under construction is known only to its thread. A composite operation is a sequence of the
  machine's operations: a destructor is `Reset` then `End`; a copy assignment is `Copy`, `Swap`, `Reset`
  and `End`; a move assignment is `Reset` then `Move`.
- In a run no successful compare-and-swap of `lock` takes the strong references to a block beyond SIZE_MAX.
  Nothing else is assumed: `increment_ref_count` terminates first, so the bound holds in every state
  (`AlwaysBounded`). `try_retain_strong_ref` has no such guard: `LockNeedsRoom` shows that the bound is exactly
  what `lock` needs, and `LockWrapsAround` gives a run whose next step breaks it. The sequential `Lock` says
  what happens on both sides of the bound. In the sequential
  classes a compare-and-swap fails spuriously any finite number of times.
- In `RefCountMachine` and `IntrusivePtr` no handle is stored inside a target. `OwnedHandles` has targets with
  member handles: there a move assignment, which releases the old target before it reads the other
  handle, is safe exactly on the condition of `Pool.MoveAssign`. The move assignment of weak handles
  needs no such condition, because giving up a weak reference destroys no target.
- A runtime always reports the same device type. A heap answers with an aligned region apart from
  all live ones, or refuses.

`is_contiguous` compares strides literally. On axes of extent 1, where the stride is never used, it
therefore rejects some dense layouts: `ContiguousMeansDense` says exactly which, `DenseButRejected` is one.

## Model

| member | source | states |
|---|---|---|
| `RefCountRuns.CountersCountReferences` | include/gradyx/core/intrusive_ptr.h:59-104 | In every run, `strong_refs` is the number of finished strong handles plus references in flight, and `weak_refs` the same for weak handles plus 1 exactly until the base destructor gives up the implicit weak reference |
| `RefCountRuns.NoUseAfterFree` | include/gradyx/core/intrusive_ptr.h:63-79 | No run reads or writes a freed control block, or dereferences or deletes a destroyed target, whatever the interleaving |
| `RefCountRuns.HandleKeepsTargetAlive` | include/gradyx/core/intrusive_ptr.h:144-150 | A strong handle whose constructor is done keeps its target usable, its block allocated and the count positive |
| `RefCountRuns.DestroyedAtMostOnce` | include/gradyx/core/intrusive_ptr.h:49-79 | The target is deleted at most once and only if it was constructed; the block is freed at most once and never before the base destructor |
| `RefCountRuns.NothingLeaks` | include/gradyx/core/intrusive_ptr.h:239-244 | Without handles and operations in progress the block has been freed exactly once and the target deleted exactly once, or never if its constructor threw, in which case the strong count was still 1 |
| `RefCountRuns.ExpiredForever` | include/gradyx/core/intrusive_ptr.h:222-225 | A strong count of 0 stays 0 in every continuation of the run, and no later `lock` on that block takes a reference |
| `RefCountRuns.LockOutcome` | include/gradyx/core/intrusive_ptr.h:213-220 | `lock` never terminates the program, and ends with a counted handle on a usable target, or with an empty handle at a moment when the strong count is 0 |
| `RefCountRuns.LockIsOneEvent` | include/gradyx/core/intrusive_ptr.h:81-91 | Over a whole call of `lock`, whatever the other threads do, the events of its thread are one miss, or one hit on an object that has an owner, followed by the hand-over to the new handle |
| `RefCountRuns.CopyIsOneEvent` | include/gradyx/core/intrusive_ptr.h:93-104 | Over a whole copy of a handle, the retry loop of `increment_ref_count` included, the only event of its thread is one indivisible "+1": the new owner |
| `RefCountRuns.CasReadsFirst` | include/gradyx/core/intrusive_ptr.h:81-104 | Every step that arrives at a compare-and-swap, or stays there, has just read the counter |
| `RefCountRuns.CasSucceedsIff` | include/gradyx/core/intrusive_ptr.h:81-104 | A compare-and-swap changes its counter exactly if the counter has the value read before and it does not fail spuriously |
| `RefCountRuns.CasFailureExplained` | include/gradyx/core/intrusive_ptr.h:81-104 | In every run, when a compare-and-swap is about to fail without being spurious, there is a step in which its thread read the count it expects, and since then another thread has written that counter |
| `RefCountRuns.RunRefines` | include/gradyx/core/intrusive_ptr.h:23-104 | Every run of the step machine is a run of the owner-set specification that has no counters |
| `RefCountRuns.LockNeedsRoom` | include/gradyx/core/intrusive_ptr.h:81-91 | The unguarded increment of `lock` keeps the counting invariant if and only if the count is below SIZE_MAX |
| `RefCountRuns.LockWrapsAround` | include/gradyx/core/intrusive_ptr.h:81-91 | A run that makes SIZE_MAX strong handles, after which `lock` wraps the count to 0 and breaks the invariant |
| `RefCountRuns.AlwaysBounded` | include/gradyx/core/intrusive_ptr.h:93-104 | The strong references to a block fit a `size_t` in every state, because `increment_ref_count` terminates before the count can wrap around |
| `RefCountRuns.OneLife` | include/gradyx/core/intrusive_ptr.h:63-79 | A run of any thread that makes a target and resets its only handle, in which the target is deleted once and the block freed once |
| `RefCountProgress.TerminatesOnlyAtLimit` | include/gradyx/core/intrusive_ptr.h:93-104 | In every run the program terminates only in a copy, at a compare-and-swap whose thread has read SIZE_MAX in its last step before; so never in `lock`, `reset`, `use_count` or `expired` |
| `RefCountProgress.EveryCallEnds` | include/gradyx/core/intrusive_ptr.h:81-104 | From any moment of any run, an operation that is left alone and does not fail spuriously ends within six steps, or terminates the program in a copy at the limit |
| `RefCountProgress.LockAlone` | include/gradyx/core/intrusive_ptr.h:213-220 | In any run, a `lock` left alone with a count below SIZE_MAX makes a counted handle and adds 1 if the count is positive, and makes an empty handle if it is 0, and changes nothing else |
| `RefCountProgress.CopyAlone` | include/gradyx/core/intrusive_ptr.h:117-121 | A copy of a strong handle left alone makes a counted handle and adds 1, or terminates the program exactly at SIZE_MAX |
| `RefCountProgress.CopyWeakAlone` | include/gradyx/core/intrusive_ptr.h:179-190 | The same for weak handles made from a strong or a weak handle |
| `RefCountProgress.ResetSharedAlone` | include/gradyx/core/intrusive_ptr.h:152-156 | Resetting one of several strong handles left alone subtracts 1 and does nothing else |
| `RefCountProgress.ResetLastAlone` | include/gradyx/core/intrusive_ptr.h:63-69 | Resetting the last strong handle left alone deletes the target once, and frees the block exactly if no weak handle is left |
| `RefCountProgress.ResetWeakAlone` | include/gradyx/core/intrusive_ptr.h:227-231 | Resetting a weak handle left alone subtracts 1, and frees the block exactly with its last reference |
| `RefCountProgress.MakeAlone` | include/gradyx/core/intrusive_ptr.h:239-244 | `make_intrusive` left alone makes one counted handle on a fresh target with both counts 1 |
| `RefCountProgress.MakeThrowsAlone` | include/gradyx/core/intrusive_ptr.h:48-49 | If the constructor throws, no handle is left and the block is freed with its strong count still 1 |
| `RefCountProgress.ReadAlone` | include/gradyx/core/intrusive_ptr.h:222-225 | `use_count` and `expired` left alone observe the strong count and change nothing |
| `RefCountProgress.ObservesOwners` | include/gradyx/core/intrusive_ptr.h:148-150 | What they observe, in every run: the number of owners, handles and threads, which is at least 1 for `use_count` |
| `RefCountProgress.LocalCalls` | include/gradyx/core/intrusive_ptr.h:123-158 | Default construction, moves and swaps are possible whenever nobody else uses the handles, and change just these |
| `RefCountProgress.EmptyCalls` | include/gradyx/core/intrusive_ptr.h:113-158 | Calls on empty handles end at once, with empty handles |
| `RefCountRefinement.StepRefines` | include/gradyx/core/intrusive_ptr.h:59-104 | Each step of any thread is exactly one event of the owner-set specification; loads, failed swaps and dereferences are silent |
| `RefCountSteps.StepKeepsInv` | include/gradyx/core/intrusive_ptr.h:59-104 | Every step of every thread keeps the invariant that ties both counters, the target pointer and the lifetimes to the references |
| `RefCountSteps.KeepLockCas` | include/gradyx/core/intrusive_ptr.h:81-91 | Adding a reference through a weak handle keeps the invariant, which rests on a positive count meaning a live target |
| `RefCountSteps.KeepRelExchange` | include/gradyx/core/intrusive_ptr.h:63-69 | Detaching the target after the count has reached 0 keeps the invariant |
| `RefCountSteps.KeepDropImplicit` | include/gradyx/core/intrusive_ptr.h:75-79 | The base destructor, after `delete` or after a throwing constructor, gives up the implicit weak reference and takes on the duty to free the block exactly if no weak handle is left |
| `RefCountRuns.OneDisposer` | include/gradyx/core/intrusive_ptr.h:63-79 | In every run at most one thread constructs a target, at most one has seen its last strong reference go and takes it apart, and at most one frees its block |
| `RefCountSpec.ExpiredIsAbsorbing` | include/gradyx/core/intrusive_ptr.h:81-91 | In the owner-set specification no event gives a strong owner to an object that has lost its last one |
| `RefCountSpec.EventsAreSafe` | include/gradyx/core/intrusive_ptr.h:48-79 | In the owner-set specification an object is destroyed only without strong owners, reclaimed only without owners, and gets its first owner only from its constructor |
| `IntrusivePtrs.IncrementRefCount` | include/gradyx/core/intrusive_ptr.h:93-104 | The count grows by one whatever the spurious failures, and the program terminates exactly at SIZE_MAX |
| `IntrusivePtrs.TryIncrement` | include/gradyx/core/intrusive_ptr.h:81-91 | The count grows by one exactly if it was positive, and wraps around to 0 at SIZE_MAX |
| `IntrusivePtrs.UseCountsAndLifetimes` | include/gradyx/core/intrusive_ptr.h:36-49 | The invariant of the handle pool, read for one target: its use count is the number of its handles, it is destroyed exactly if it has no strong handle, and its block is freed exactly if it has no handle at all |
| `IntrusivePtrs.ReleaseStrongRef` | include/gradyx/core/intrusive_ptr.h:63-69 | Paying back an owed strong reference restores the invariant; a target without handles is destroyed here |
| `IntrusivePtrs.ReleaseWeakRef` | include/gradyx/core/intrusive_ptr.h:75-79 | Paying back an owed weak reference restores the invariant; a block without references is freed here |
| `IntrusivePtrs.IntrusivePtr.Copy` | include/gradyx/core/intrusive_ptr.h:117-121 | A new handle on the same target, counted, or termination exactly at SIZE_MAX handles |
| `IntrusivePtrs.IntrusivePtr.Move` | include/gradyx/core/intrusive_ptr.h:123-124 | The new handle takes the target over and the old one is empty; no count changes hands wrongly |
| `IntrusivePtrs.IntrusivePtr.CopyAssign` | include/gradyx/core/intrusive_ptr.h:128-134 | Assignment from another handle or from itself, with the old target released and no handle left behind |
| `IntrusivePtrs.IntrusivePtr.MoveAssign` | include/gradyx/core/intrusive_ptr.h:136-142 | Move assignment from another handle or from itself, with the old target released, for handles that are not stored in targets |
| `IntrusivePtrs.IntrusivePtr.Reset` | include/gradyx/core/intrusive_ptr.h:152-156 | The handle is empty and every target and block is as its remaining handles say |
| `IntrusivePtrs.IntrusivePtr.Swap` | include/gradyx/core/intrusive_ptr.h:158 | Two handles exchange targets, also a handle with itself, and all counts still agree |
| `IntrusivePtrs.IntrusivePtr.UseCount` | include/gradyx/core/intrusive_ptr.h:148-150 | The use count is the number of handles on the target, 0 for an empty handle |
| `IntrusivePtrs.WeakIntrusivePtr.FromStrong` | include/gradyx/core/intrusive_ptr.h:179-184 | A weak handle on the block of the target, counted |
| `IntrusivePtrs.WeakIntrusivePtr.Copy` | include/gradyx/core/intrusive_ptr.h:186-190 | A second weak handle on the same block, counted |
| `IntrusivePtrs.WeakIntrusivePtr.Move` | include/gradyx/core/intrusive_ptr.h:192-193 | The weak reference changes hands without being counted again |
| `IntrusivePtrs.WeakIntrusivePtr.CopyAssign` | include/gradyx/core/intrusive_ptr.h:197-203 | Copy assignment of weak handles, self-assignment included |
| `IntrusivePtrs.WeakIntrusivePtr.MoveAssign` | include/gradyx/core/intrusive_ptr.h:205-211 | Move assignment of weak handles, self-assignment included; it destroys no target |
| `IntrusivePtrs.WeakIntrusivePtr.Reset` | include/gradyx/core/intrusive_ptr.h:227-231 | The weak handle is empty; its block is freed if nothing refers to it any more |
| `IntrusivePtrs.WeakIntrusivePtr.Swap` | include/gradyx/core/intrusive_ptr.h:233 | Two weak handles exchange blocks and all counts still agree |
| `IntrusivePtrs.WeakIntrusivePtr.Expired` | include/gradyx/core/intrusive_ptr.h:222-225 | True exactly if no strong handle is left, which is exactly if the target is destroyed |
| `IntrusivePtrs.WeakIntrusivePtr.Lock` | include/gradyx/core/intrusive_ptr.h:213-220 | A new handle on the live target if any strong handle is left, else an empty handle; the counts are right afterwards exactly if there were fewer than SIZE_MAX handles |
| `IntrusivePtrs.MakeIntrusive` | include/gradyx/core/intrusive_ptr.h:239-244 | One handle with use count 1, or a freed block and no handle if the constructor throws |
| `OwnedHandles.Pool.Release` | include/gradyx/core/intrusive_ptr.h:63-69 | The recursive destruction of targets and their member handles keeps all counts right and destroys no variable and nothing that is held |
| `OwnedHandles.CascadeRemains` | include/gradyx/core/intrusive_ptr.h:49-79 | What survives a release is exactly what is held: a target in some set of targets each of which has a handle that is a variable or a member of the set |
| `OwnedHandles.Pool.Reset` | include/gradyx/core/intrusive_ptr.h:152-156 | Any handle may be reset, also one that its own release destroys; the targets and handles left are those that are held |
| `OwnedHandles.Pool.CopyAssign` | include/gradyx/core/intrusive_ptr.h:128-134 | Copy assignment is safe wherever the two handles are stored |
| `OwnedHandles.Pool.MoveAssign` | include/gradyx/core/intrusive_ptr.h:136-142 | Move assignment reads or writes a destroyed handle if and only if one of the two handles is a member of a target that nothing but the old pointer holds; otherwise the pointer changes hands |
| `OwnedHandles.SharedMoveIsSafe` | include/gradyx/core/intrusive_ptr.h:136-142 | Move assignment is safe if the old target has another handle, or if there is none |
| `OwnedHandles.AdvanceFailsIff` | include/gradyx/core/intrusive_ptr.h:136-142 | `p = std::move(p->next)` fails exactly if `p` is the only handle on its target |
| `CheckedMath.CheckedAdd` | include/gradyx/core/checked_math.h:11-27 | For every width and signedness the exact sum if it is representable, else Overflow, without an intermediate result outside the type |
| `CheckedMath.CheckedMultiply` | include/gradyx/core/checked_math.h:29-55 | For every width and signedness the exact product if it is representable, else Overflow, without an intermediate result outside the type |
| `CheckedMath.WidthIsExact` | include/gradyx/core/checked_math.h:13-27 | A type of a given width has 2^width values, from 0 on or split evenly around 0 |
| `CheckedMath.Limits` | include/gradyx/core/checked_math.h:13-27 | The limits of the 32-bit and 64-bit types as numbers |
| `CheckedMath.Pow2Adds` | include/gradyx/core/checked_math.h:13-27 | The powers of two in which the limits are given obey the law of exponents |
| `CheckedMath.DivisionTestsAreExact` | include/gradyx/core/checked_math.h:39-53 | The truncating-division tests hold exactly if the product is not representable |
| `CheckedMath.DivisionsFit` | include/gradyx/core/checked_math.h:39-52 | Every quotient the tests compute is representable |
| `CheckedMath.MinusOneGuardIsImplied` | include/gradyx/core/checked_math.h:44-46 | The test for -1 and the minimum is implied by the four tests that follow it |
| `Shapes.FromDims` | src/core/shape.cc:12-39 | Validation accepts exactly the non-negative dimensions and keeps them |
| `Shapes.Numel` | src/core/shape.cc:49-63 | The number of multi-indices if it fits `std::uint64_t`, else Overflow, although the loop stops early; 0 if an extent is 0, however large the others are |
| `Shapes.NumelCounts` | src/core/shape.cc:49-63 | The same for the result as a function of the dimensions; there are no multi-indices exactly if an extent is 0 |
| `Shapes.BoxCount` | src/core/shape.cc:55-62 | The set of all multi-indices of a shape has as many elements as the product of the extents says |
| `Shapes.BoxIff` | src/core/shape.cc:49-63 | That set consists of the index sequences whose components are below the extents |
| `Shapes.NumelPermutes` | src/core/shape.cc:49-63 | Value and success of `numel` do not depend on the order of the axes |
| `Shapes.ContiguousStrides` | src/core/shape.cc:65-80 | The canonical strides, exactly if the shape with 1 in place of its extents of 0 has at most 2^63-1 multi-indices, else Overflow |
| `Shapes.CanonAt` | src/core/shape.cc:65-80 | Stride i is the product of max(d, 1) over the axes to its right |
| `Shapes.SpanCounts` | src/core/shape.cc:69-78 | The padded product is the number of multi-indices of the shape with 1 in place of its extents of 0 |
| `Shapes.ZeroAxis` | src/core/shape.cc:72 | Taking out an axis of extent 0 takes out its stride and leaves all the other strides and the padded product as they are |
| `Shapes.StridesPermute` | src/core/shape.cc:65-80 | Success of `contiguous_strides` does not depend on the order of the axes |
| `Shapes.NumelFromStrides` | src/core/shape.cc:49-80 | On zero-free shapes with strides, `numel` is the first extent times the first stride |
| `Shapes.AddressingIsBijective` | src/core/shape.cc:65-80 | The strides map the multi-indices bijectively onto [0, numel), with inverse (offset / stride[i]) mod dim[i], and no partial sum leaves `std::int64_t` |
| `Shapes.OffsetIncreases` | src/core/shape.cc:65-80 | Addresses are strictly increasing in row-major order, and equal only for equal multi-indices |
| `Shapes.UnravelThenOffset` | src/core/shape.cc:65-80 | Every address below `numel` is the address of the multi-index computed from it |
| `Shapes.IsContiguous` | src/core/shape.cc:82-92 | The error cases, and otherwise literal equality with the canonical strides |
| `Shapes.DenseIff` | src/core/shape.cc:82-92 | A stride vector addresses densely in row-major order exactly if it is canonical on every axis of extent 2 or more |
| `Shapes.ContiguousMeansDense` | src/core/shape.cc:82-92 | What is accepted: dense strides that also match literally on axes of extent 1 |
| `Shapes.DenseButRejected` | src/core/shape.cc:91 | A dense stride vector that is rejected because of an axis of extent 1 |
| `Scalars.FloatingExact` | include/gradyx/core/scalar.h:30-52 | Conversion of a floating-point number succeeds exactly on integral values in range, with the right error otherwise |
| `Scalars.ToIntegerIff` | include/gradyx/core/scalar.h:199-226 | Conversion to an integer type returns n exactly if the scalar denotes n and n is in range |
| `Scalars.ToIntegerErrors` | include/gradyx/core/scalar.h:199-226 | Which error a failing conversion gives |
| `Scalars.FloatingConversion` | include/gradyx/core/scalar.h:30-52 | Integers convert if they fit, the place of the binary point does not matter, and numbers with a fraction, infinities and NaN fail with the error of their kind |
| `Scalars.OtherConversions` | include/gradyx/core/scalar.h:169-226 | Booleans, integers and complex numbers, and the conversion to bool, in terms of that |
| `Scalars.ToBoolIff` | include/gradyx/core/scalar.h:169-197 | Conversion to bool succeeds exactly on 0 and 1 |
| `Scalars.IntegerRoundTrip` | include/gradyx/core/scalar.h:70-78 | Integers of every width up to 64 bits survive storing and converting back |
| `Scalars.ConversionIsTransparent` | include/gradyx/core/scalar.h:108-119 | Going on from the result of a successful conversion gives the same value or error as going on from the scalar |
| `Devices.ParseIff` | src/core/device.cc:35-70 | The accepted texts: a type name, alone or with a colon and a numeral whose value is an index |
| `Devices.ParseNames` | src/core/device.cc:23-70 | The names "cpu", "cuda" and "meta", alone for index 0, or with a colon and exactly the numerals of values in [0, 2^31-1] |
| `Devices.NumeralsAreDecimal` | src/core/device.cc:54-61 | What a digit, one more digit and a minus sign do to the value of a numeral, and which characters it has |
| `Devices.ParseErrors` | src/core/device.cc:55-66 | OutOfRange exactly for 64-bit numerals that are no index, InvalidArgument for everything else |
| `Devices.FromCharsIff` | src/core/device.cc:54-61 | The whole text is consumed exactly if it is a numeral; the value is its value if it fits 64 bits |
| `Devices.ParseUndoesStr` | src/core/device.cc:72-74 | Parsing the printed form of a valid device gives the device |
| `Devices.StrNames` | src/core/device.cc:72-74 | The printed form is the name, a colon and the numeral of the index without leading zeros |
| `Devices.CanonicalIsIdempotent` | src/core/device.cc:35-74 | Printing what was parsed keeps the device, is idempotent, and identifies exactly the texts of one device |
| `DataPtrs.DataPtr.Move` | include/gradyx/core/data_ptr.h:27-30 | The contents change hands and the source is empty |
| `DataPtrs.DataPtr.Reset` | include/gradyx/core/data_ptr.h:53-60 | The deleter is called once with the data and the context that the object had, exactly if both data and deleter were set, and the object is empty |
| `DataPtrs.DataPtr.MoveAssign` | include/gradyx/core/data_ptr.h:36-44 | The old contents go to their deleter, the new ones change hands; nothing happens on self-assignment |
| `DataPtrs.DataPtr.Swap` | include/gradyx/core/data_ptr.h:62-68 | Two objects exchange all five members |
| `DataPtrs.OperationConserves` | include/gradyx/core/data_ptr.h:24-68 | One operation moves a block between objects or to its deleter, and neither copies nor drops it |
| `DataPtrs.BlocksConserved` | include/gradyx/core/data_ptr.h:24-68 | Over every sequence of operations, blocks entrusted equal blocks owned plus deleter calls, with multiplicity |
| `DataPtrs.OneOwner` | include/gradyx/core/data_ptr.h:24-68 | A block entrusted once has at most one owner, none after its deleter has run, and its deleter runs at most once |
| `DataPtrs.NothingLost` | include/gradyx/core/data_ptr.h:31 | Once all objects are destroyed every block has gone to its own deleter as often as it was entrusted |
| `DataPtrs.DeletersCalled` | include/gradyx/core/data_ptr.h:24-60 | Only deleters passed to constructors are called, with the non-null data and the context they came with, and once all objects are destroyed every one of them has been |
| `DataPtrs.AllCanEnd` | include/gradyx/core/data_ptr.h:31 | Every run can be continued by destroying all objects, or by constructing one more |
| `CpuAllocator.BitTrickIff` | backend/cpu/runtime.cc:13-15 | The bit trick holds exactly for the powers of two |
| `CpuAllocator.EffectiveAlignment` | backend/cpu/runtime.cc:93-104 | The alignment passed on is a multiple of the requested and of the fundamental one, and legal for `posix_memalign` exactly if it passes the size test |
| `CpuAllocator.Heap.PosixMemalign` | backend/cpu/runtime.cc:104 | What the heap requires and promises: a refusal, or an aligned region apart from all live ones |
| `CpuAllocator.Allocate` | backend/cpu/runtime.cc:81-110 | For every device, alignment and size: InvalidArgument, the empty result, ResourceExhausted, or one request to the heap, whose answer decides between ResourceExhausted and an owner of a fresh region on cpu:0, aligned as asked, with null context and the freeing deleter; errors leave the heap as it is |
| `CpuAllocator.AlignedAsAsked` | backend/cpu/runtime.cc:93-104 | An address aligned to the alignment passed on is aligned to the requested and to the fundamental one |
| `CpuAllocator.LiveAllocations` | backend/cpu/runtime.cc:81-110 | In every run nothing is freed twice, live allocations are aligned as their requests asked and disjoint, and each has exactly one owner |
| `CpuAllocator.RequestsAreServed` | backend/cpu/runtime.cc:104-109 | In a run, a request for cpu:0 that the heap answers adds one owner and one region, and one that it refuses changes nothing |
| `CpuAllocator.AllCanBeFreed` | backend/cpu/runtime.cc:17-21 | Every run can be continued so that all memory is freed |
| `CpuAllocator.NoLeak` | backend/cpu/runtime.cc:17-21 | When all owners are destroyed, all memory has been freed |
| `Registry.RuntimeRegistry.Register` | src/runtime/registry.cc:8-25 | InvalidArgument for no runtime or an invalid reported type, AlreadyExists for a type that has a runtime, and else one new entry under the reported type; failures change nothing |
| `Registry.RuntimeRegistry.Get` | src/runtime/registry.cc:27-38 | A registered runtime that reports the type asked for; fails exactly if none is registered, with an error that says whether the type is valid |
| `Registry.StepKeepsInv` | src/runtime/registry.cc:18-32 | Every step of every thread keeps mutual exclusion and the agreement of map and results |
| `Registry.RegistryIsLinearizable` | src/runtime/registry.cc:8-38 | Under every interleaving no access races with a write, and the results are those of the one-thread registry in settlement order |
| `Registry.CallSettlesOnce` | src/runtime/registry.cc:8-38 | Every call settles exactly one result, its own, after it has started and before it ends, so settlement order agrees with real time |
| `Registry.RegisterAlone` | src/runtime/registry.cc:18-24 | In any run, a registration that finds the lock free and is left alone is settled as AlreadyExists, or with its runtime entered, and releases the lock |
| `Registry.GetAlone` | src/runtime/registry.cc:32-37 | A lookup that no writer keeps waiting, left alone beside any readers, is settled with the runtime of its type or as Unavailable |
| `Registry.InvalidCalls` | src/runtime/registry.cc:9-30 | Calls with an invalid argument are settled as InvalidArgument in their first step, with or without the lock |
| `Registry.CallEnds` | src/runtime/registry.cc:18-37 | From any moment of any run, a call that does not have to wait for the lock ends within five of its own steps |
| `Registry.NoDeadlock` | src/runtime/registry.cc:18-32 | In every run some thread that is in a call can go on |
| `Registry.SettledStays` | src/runtime/registry.cc:27-38 | A type keeps its runtime in every continuation of a run |
| `Registry.KeysMatch` | src/runtime/registry.cc:13-23 | Every key is a valid type and the one its runtime reports |
| `Registry.WriteOnce` | src/runtime/registry.cc:18-37 | At most one registration per type succeeds; later ones are refused, later lookups return its runtime, earlier ones find nothing |
| `Registry.SomeoneWins` | src/runtime/registry.cc:18-24 | A type has a runtime exactly if a registration succeeded, and it has one as soon as any valid registration is settled |

## Left out

- IntrusivePtrs.IntrusivePtr.MoveAssign: does not cover handles that are members of targets, which `OwnedHandles.Pool.MoveAssign`
  does.
- Memory orders weaker than sequential consistency.
- Reuse of the address of a freed control block or target: every allocation has its own name.
- Handles stored inside targets while several threads use them, weak handles inside targets, and what else the
  destructor of a derived target does.
- Fair scheduling: progress is proved for a thread that runs alone for a while, not under contention without end.
- Failure to allocate a control block or a target in `make_intrusive`.
- The throwing constructors of `Shape` and `Device`; only the `Result` forms are modelled.
- Conversion of scalars to floating-point and complex types, which rounds by platform.
- Status messages, source locations, stream output and hashing.
- The dtype and layout tables, events, streams, capabilities and the default registry.
- Memory contents, libc and the CUDA toolkit boundary.
