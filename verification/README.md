# Verified model of the MMTk binding for Scala Native

This project models the collector side of the Rust binding between Scala Native and
MMTk, with the default features (`uses_lockword`, multithreading), and proves what
that code is for: that a copying trace driven by the binding's object scanning
preserves the reachable object graph, that no root is lost on the way from a
thread's stack to a work packet, and that the stop/resume thread serves every request
once and in order. Where the code falls short, a concrete heap shows it and the exact
condition under which it does not is proved.
`dafny verify dfyconfig.toml` checks everything.

## What is modelled

* **Layout** (`Bits`, `Abi`): 64-bit masks, alignment, wrap-around rounding, object and
  array sizes, element addresses, reference maps and tagged lock words.
* **Heap** (`Heap`, `ObjectModel`): memory is a map from word addresses to 64-bit words;
  an object header is a class pointer and a lock word (16 bytes), an array header adds
  length and stride (24 bytes). `World` is what a collection starts from. Its `plan`
  names the destination of every object, the object itself when it stays; all results
  hold for every `plan`, so for every copying policy and allocator that hands out free,
  disjoint memory. Roots do not move, because the binding reports them as pinned
  (`mmtk/src/scanning.rs:114`).
* **Tracing** (`Tracing`, `Invariant`, `ScanSteps`, `Evacuation`, `Collection`,
  `LockWords`, `TwoPhase`): the meaning of every scanning step as a function on the
  collector's state, the invariant all of them keep, and the results about whole runs,
  in which workers take queued nodes in any order. An object is *reachable* here when it
  is a root, the target of a strong slot of a reachable object, or the monitor of a lock
  word of such a target, which is what the code follows (`Invariant.ReachExactly`).
* **The code of object scanning** (`ObjectScanning.Collector`, `EdgeVisiting.EdgeVisitor`):
  the loops and in-place stores of `object_scanning.rs`, each proved to do what the
  corresponding function of `Tracing` or `TwoPhase` says. The functions read an unmapped
  word as 0 and an unknown class as an empty one so that they are total; the methods
  index memory directly, so every read and store of the code is proved to be in bounds.
* **Root scanning** (`RootsReporting`, `RootScanning`, `RootProperties`): the buffered
  reporter and the mutually recursive marking functions, with any buffer capacity of at
  least 4096 chosen anew for each buffer.
* **Both together** (`FullCollection`): a root scan, the tracing of its packets and the
  worklist, as one method.
* **The results without the binding's decoders** (`PlainTerms`, `PlainVisits`): which words are
  slots, what a collection leaves in every word, which objects it traces, what the weak stack
  holds and what `scan_object` hands over, each told from the id ranges, the reference maps, the
  32-bit halves of header words and single words of memory.
* **Weak references** (`WeakReferences`, `WeakPass`): the loop that clears dead referents,
  once for any tracer that is a function, once with the collector itself as the tracer.
* **From one collection to the next** (`NextCollection`).
* **Heaps on which something goes wrong** (`Examples`, `ClassLockExamples`, `LeftoverExample`).
* **The synchronizer** (`Synchronizer`): a state machine whose events are the
  installation of the channel, the start of the thread, a worker's send and one step of
  the thread; a run is any interleaving. `Machine` is the code, proved to take these steps.

### What is taken from mmtk-core

mmtk-core is not part of this model; the following is assumed of it and written out in
`Tracing` and `ObjectModel`. `trace_object` acts once per object: it puts bits into the
header, calls the binding's `copy`, leaves the destination with both forwarding bits set
in the old header, and enqueues the new address; on later calls, and on a reference that
has already been forwarded, it only returns the forwarded reference. `post_copy`
clears the two forwarding bits of the copy. `is_mmtk_object` accepts the objects of the
starting heap and the copies made so far.

### Where the code does not do what one would expect

* The second store of the lock-word scan writes the object's own monitor into the class
  lock word (`mmtk/src/object_scanning.rs:206-210`). `Examples.OwnLockIsLost` is a heap,
  with the roots a root scan reports (`Examples.LockedIsReported`), on which every
  collection leaves an own lock word with the old address of a monitor that moved;
  `Examples.ClassGainsMonitor` shows the class getting it instead.
  `Collection.OwnLockAfterCollection` says exactly which own lock words come out right.
  On the heap of `ClassLockExamples.RootClassLockIsTaken` even the class lock word of a root is
  overwritten, with the monitor of another instance. `Collection.ClassLockAfterCollection` says for every class
  what becomes of its lock word: it is right, or would be without a scan, when no inflated own lock of a slot
  target names a foreign monitor; it is wrong when all of them do. In between, the node
  scanned last decides: `ClassLockExamples.LastScannedDecides` has two runs of one heap with different outcomes.
* Lock words are scanned only of the targets of slots (`mmtk/src/object_scanning.rs:143-145`).
  A monitor is traced and its slots are scanned, but not its lock words, so the monitor of a
  monitor is dropped unless a root or a slot target keeps it too. On the same heap, an
  object that does not move is dropped although the lock word of a traced monitor
  names it. `Collection.TracedIsReachable` and `Invariant.ReachExactly` give the exact condition. Root
  scanning does follow such chains (`mmtk/src/scanning.rs:250-268`), so the own lock words of
  roots are right after every collection, and the lock words of their classes unless an own
  lock of another instance disturbs them (`FullCollection.RootLocks`).
* Nothing empties the global weak stack: it is popped only in the nullify loop, whose call is
  commented out (`mmtk/src/scanning.rs:359-361`, `mmtk/src/scanning.rs:465-467`). From the second collection on it starts
  with entries of earlier ones, which no step looks at. `World` carries them as `leftover`;
  after a collection the stack holds them and exactly the weak references discovered
  (`Collection.WeakReferencesDiscovered`), and only those if and only if every leftover is discovered again
  (`Collection.OnlyDiscoveredExactly`). `LeftoverExample.StaleEntryStays` is a second collection whose
  stack has an entry it did not trace.
* A finished collection leaves a heap the next one may start from if and only if the
  lock words that nothing was stored to name monitors that stayed and were kept
  (`NextCollection.NextIsWellFormedExactly`).
* `scan_object` dereferences the header of each slot's target where the slot points, which
  is a class pointer exactly while the target has not moved away (`TwoPhase.CleanHeaderIsClass`).
  The methods of `EdgeVisiting.EdgeVisitor` say whether the visit was defined. After any node has
  been scanned, a queued node that shares a moved target with it is one on which it is not
  (`TwoPhase.SharedTargetGetsDirty`), as in `Examples.VisitingMissesWeak`. The binding declares
  edge enqueuing unsupported (`mmtk/src/scanning.rs:424-426`), which keeps it off that path.
* Marking from roots recurses through inflated locks with no visited set
  (`mmtk/src/scanning.rs:204-268`). `Examples.MarkingNeverEnds` is an object whose class's
  lock word names it, on which the recursion never ends. It ends for some objects exactly when a rank
  covers them (`RootProperties.MarkingEndsExactly`); the marking methods ask for a rank that
  covers the root words, and nothing of other objects (`RootProperties.RootsCoveredExactly`).
* `mmtk_mark_range` scans both ends of the range, and the register range ends one past the last
  register (`mmtk/src/scanning.rs:307`, `mmtk/src/scanning.rs:335-336`). The model asks for that word to be readable.
* The nullify loop traces the referent before asking whether it is reachable
  (`mmtk/src/scanning.rs:377-380`), and never stores the traced referent. Run with the collector's tracer
  after a collection it clears nothing, evacuates and queues every object that only the stack leads to,
  and the slot of a referent that moved keeps the old address (`WeakPass.NullifyWithCollector`).
* The pass over weak references is commented out (`mmtk/src/scanning.rs:465-468`). A weak
  referent slot keeps the old address, so the graph results are about strong slots; every other word,
  weak referents included, is proved to be copied unchanged.
* `stop_all_mutators` returns without waiting for the answer (`mmtk/src/collection.rs:38-42`),
  so after any run it changes nothing about them (`Synchronizer.SendLeavesMutators`). Requests sent before
  initialisation go to a channel without receiver and are lost.
* The object-array loop ignores the stride of the array; it meets the element addresses exactly
  when the stride is a word (`Abi.ElementSlotsAreElementAddresses`). `World.WellFormed` asks this of object arrays.

## Model

| member | source | states |
|---|---|---|
| Collection.EvacuationPreservesGraph | mmtk/src/object_scanning.rs:132-333 | for every well-formed heap, every destination plan and every order of serving the queue: once the queue is empty the new heap is isomorphic to the old reachable one over strong slots (roots fixed, one address per object, same class, size and slots, forwarded references, other words copied), and exactly the reachable objects are traced |
| Collection.CollectionExists | mmtk/src/object_scanning.rs:327-333 | from every well-formed heap, every listing of its roots and every weak stack some run empties the queue, so the results about finished collections are about something |
| PlainTerms.CollectionInPlainTerms | mmtk/src/object_scanning.rs:132-333 | after every finished collection, for every word of every traced object, up to the size its class or its length and stride declare: a map entry before the first -1 that is not the referent field of a class id in the weak range, and every element of an object array, holds the new address of the valid object it named, which is traced; every other word is unchanged. Traced are exactly the roots, what these slots name, and what an odd lock word of a slot target or its class names. The weak stack gains exactly the new addresses of roots and slot targets with an id in the weak range |
| PlainTerms.FieldForwarded | mmtk/src/object_scanning.rs:242-255 | every field of a traced object that the map lists, of a weak reference too, is followed and updated, unless the class is weak and the offset is the referent's |
| PlainTerms.ElementForwarded | mmtk/src/object_scanning.rs:279-294 | in a traced object array whose header word is length + 8 * 2^32, each of the `length` words after the 24 bytes of header is followed and updated |
| PlainTerms.ReferentKept | mmtk/src/abi.rs:133-142 | the referent field of a traced weak reference is copied unchanged |
| PlainTerms.SlotsInPlainTerms | mmtk/src/object_scanning.rs:239-294 | a word is scanned if and only if it is a map entry before the first -1 and not both in a weak class and at the referent's offset, or an element of an array whose id is the object array's |
| PlainTerms.SizeInPlainTerms | mmtk/src/abi.rs:116-131 | every word within the declared size of the class, or within header and elements of an array, is among those a copy moves |
| PlainTerms.SlotGuardInPlainTerms | mmtk/src/object_scanning.rs:132-156 | in every state of a trace, a slot's word lies between the first and the last heap address and passes the tracer's test if and only if the slot held a valid object; then that object is traced and its new address stored, and otherwise nothing changes |
| Collection.TracedIsReachable | mmtk/src/object_scanning.rs:132-294 | on an empty queue an object has been traced if and only if it is reachable, which is if and only if it is a root, or the target of a strong slot of a reachable object, or a monitor of such a target's own or class lock word |
| Invariant.ReachExactly | mmtk/src/object_scanning.rs:143-145 | reachability goes one step along lock words: beyond the roots it is exactly what the targets of reachable objects' slots keep |
| Collection.SlotTargetMonitorsTraced | mmtk/src/object_scanning.rs:181-214 | the monitors of both lock words of every slot target are traced, whatever order nodes are scanned in |
| Collection.RunIsBounded | mmtk/src/object_scanning.rs:327-333 | at every moment of every run, nodes scanned plus nodes queued equal the objects traced: nothing is enqueued twice and no run is longer than the number of objects |
| Collection.TraceFrame | mmtk/src/object_scanning.rs:132-258 | at every moment of every run, only strong slots of traced objects, headers of evacuated objects and their destinations have changed; skipped slots, own lock words, primitive arrays and words that are no object keep their value, and a changed class lock holds a traced monitor |
| Collection.WeakReferencesDiscovered | mmtk/src/object_scanning.rs:146-148 | after the trace the weak stack begins with what was left on it, and an address is on it if and only if it was left there or is the forwarded address of an object with a class id from the lowest to the highest weak id that is a root or in a strong slot of a reachable object |
| Collection.OnlyDiscoveredExactly | mmtk/src/scanning.rs:359-361 | the stack holds exactly the weak references of this collection if and only if every entry left from earlier ones is one of them |
| LeftoverExample.StaleEntryStays | mmtk/src/scanning.rs:458-471 | two collections in a row, however they run: the entry the first leaves is on the stack after the second, which has neither discovered nor traced it |
| Collection.RttiLocksRetagged | mmtk/src/object_scanning.rs:187-212 | at every moment of every run a class lock word is untouched or names the new address of a traced monitor, the class's own or that of a slot target's own lock; if no slot target's own lock names a foreign monitor, it is untouched or correctly retagged |
| Collection.ClassLockAfterCollection | mmtk/src/object_scanning.rs:187-212 | for every class: if no slot target's own lock names a foreign monitor, the class lock word names the new address of its traced monitor after a collection if and only if an instance was the target of a reachable slot, or the word was thin, or its monitor stays and is retained; if some slot target has an inflated own lock, the word names the new address of such an own monitor, and is wrong whenever none of these is the class's |
| Collection.ClassLockUnscanned | mmtk/src/object_scanning.rs:143-145 | at every moment, whatever own locks hold, the lock word of a class with no instance in a reachable slot is untouched |
| Collection.OwnLockAfterCollection | mmtk/src/object_scanning.rs:200-211 | after a collection an own lock word of a traced object is unchanged, and names the new address of its traced monitor if and only if it is thin, or its monitor does not move and is a root or kept by a slot target |
| Evacuation.RunKeeps | mmtk/src/object_scanning.rs:239-294 | every run, in any order, keeps the heap invariant and the tri-colour property, and scans no node twice |
| Evacuation.StepKeeps | mmtk/src/object_scanning.rs:327-333 | taking any queued node and scanning it leaves every traced object either queued or with all its slots done, including the objects traced meanwhile |
| Evacuation.StepShrinks | mmtk/src/object_scanning.rs:327-333 | a step traces a new object or shortens the queue, which is why the worklist ends |
| Evacuation.ScanNodeBlackens | mmtk/src/object_scanning.rs:239-294 | scanning a node finishes all its slots and spoils no finished object |
| ScanSteps.ScanSlotKeepsInv | mmtk/src/object_scanning.rs:132-156 | scanning one slot, in any state of a trace, keeps the invariant; the target and its monitors are traced, the slot holds its new address, its weak entry is pushed, and no finished slot is spoiled |
| ScanSteps.ScanLocksKeepsInv | mmtk/src/object_scanning.rs:181-214 | scanning lock words keeps the invariant, changes no word of a traced object and traces both monitors |
| ScanSteps.ScannedLooksSound | mmtk/src/object_scanning.rs:143-150 | the debug assertions hold: the traced address is a valid object with a non-null class and a size that is not zero |
| Invariant.TraceKeepsInv | mmtk/src/object_model.rs:30-42 | evacuating any reachable object, copy included, keeps the invariant and touches no word of an object traced before |
| Invariant.DestInjective | mmtk/src/object_model.rs:36-39 | two objects never have the same destination |
| ObjectModel.SizeForCopyIgnoresTagBits | mmtk/src/abi.rs:124-131 | whatever bits below the alignment sit in the header, `size_for_copy` is the size of the clean object |
| ObjectModel.CopyIsFaithful | mmtk/src/object_model.rs:30-42 | after `copy` with any forwarding bits in the header, the destination equals the clean object word for word, and so in class, size and slots to scan |
| ObjectScanning.Collector.SizeForCopy | mmtk/src/abi.rs:124-131 | the code computes the clean object's size through a header with tag bits, reading only mapped words |
| ObjectScanning.Collector.Copy | mmtk/src/object_model.rs:30-42 | the code returns the destination and leaves memory as the word-for-word copy with cleared forwarding bits |
| ObjectScanning.Collector.TraceObject | mmtk/src/object_model.rs:14-42 | the tracer built around `copy`: evacuates and enqueues on the first visit, changes nothing later, and returns the forwarded reference |
| ObjectScanning.Collector.ScanLockWordsAndTraceEdges | mmtk/src/object_scanning.rs:181-214 | the code traces both monitors and stores both results into the class lock word, as the state function says; the object then passes the debug assertions |
| ObjectScanning.Collector.ScanFieldAndTraceEdges | mmtk/src/object_scanning.rs:132-156 | the code performs exactly one slot step: trace, lock words, weak push, store of the forwarded reference |
| ObjectScanning.Collector.ObjectIterateAndTraceEdges | mmtk/src/object_scanning.rs:239-258 | the loop over the reference map scans exactly the mapped slots before the terminator but the weak referent, in order, although memory changes under it |
| ObjectScanning.Collector.ArrayIterateAndTraceEdges | mmtk/src/object_scanning.rs:279-294 | the loop scans every element of an object array in order, and nothing of any other array |
| ObjectScanning.Collector.ScanObjectAndTraceEdges | mmtk/src/object_scanning.rs:308-333 | the dispatch on the class performs the node step whose results are above |
| ObjectScanning.Collector.Drain | mmtk/src/object_scanning.rs:327-333 | a worklist around the node step ends with an empty queue, as a run in the order it picked |
| LockWords.LocksForwardedExactly | mmtk/src/object_scanning.rs:181-214 | both lock words end up forwarded if and only if the own lock is thin, or is the word the class already holds and its monitor stays |
| LockWords.ClassLockAfterScan | mmtk/src/object_scanning.rs:185-212 | the own lock word is never changed; the class lock word becomes the own monitor's if the own lock is inflated, else the retagged old value |
| LockWords.ScanLocksIsStable | mmtk/src/object_scanning.rs:181-214 | scanning the same lock words again changes nothing at all |
| Examples.OwnLockIsLost | mmtk/src/object_scanning.rs:206-210 | on a well-formed heap of four objects, every collection leaves one own lock word with the old address of a traced monitor that moved, and another one naming a monitor that does not move and has not been traced |
| Examples.LockedIsReported | mmtk/src/scanning.rs:415-422 | that heap is well-formed, and its roots are exactly what a root scan reports when a module refers to its first object |
| Examples.ClassGainsMonitor | mmtk/src/object_scanning.rs:206-210 | in every state of a trace of that heap, scanning the lock words of the object gives its class, which had no monitor, the object's |
| ClassLockExamples.RootClassLockIsTaken | mmtk/src/object_scanning.rs:206-210 | after every collection of a heap of four objects, none of which moves, the lock word of a root's class names another object's monitor |
| ClassLockExamples.TakenIsReported | mmtk/src/scanning.rs:415-422 | that heap is well-formed, and its roots are exactly what a root scan reports when a module refers to its first object |
| ClassLockExamples.LastScannedDecides | mmtk/src/object_scanning.rs:181-214 | a well-formed heap with two finished collections from the same roots, which differ only in the order of scanning: one leaves a class lock word right, the other does not |
| ClassLockExamples.MixedIsReported | mmtk/src/scanning.rs:415-422 | the roots of that heap are exactly what a root scan reports when modules refer to them |
| Examples.MarkingNeverEnds | mmtk/src/scanning.rs:204-268 | a well-formed heap with one root word for which the recursion ends at no depth and which no rank covers |
| Examples.VisitingMissesWeak | mmtk/src/object_scanning.rs:107-129 | a state of a run whose queued node still refers to a weak reference that has moved away: visiting it is not defined, and the two-phase form misses a weak reference the direct form records |
| TwoPhase.DirectRefinesTwoPhase | mmtk/src/object_scanning.rs:107-156 | when the lock words of what the node's slots lead to are not inflated at that moment, the tracing form gives the same memory, traced objects, queue order and locks as visiting first and then loading, tracing and storing each edge; the weak stacks differ only by forwarding if and only if no slot leads to a weak reference that has moved away |
| TwoPhase.SharedTargetGetsDirty | mmtk/src/object_scanning.rs:107-129 | once a node has been scanned, every other traced object whose slot still names an object it moved leads the first phase to a header that is no class pointer |
| TwoPhase.CleanHeaderIsClass | mmtk/src/object_scanning.rs:107-129 | the header `scan_object` reads through a slot is a class pointer if and only if its forwarding bits are clear; otherwise it is the forwarding word |
| TwoPhase.VisitAllIsTwoPhase | mmtk/src/object_scanning.rs:217-236 | visiting slots one by one yields the addresses of the valid ones in order and the weak references among their targets |
| EdgeVisiting.EdgeVisitor.ScanField | mmtk/src/object_scanning.rs:107-129 | the visit of a slot is defined if and only if the word is no valid object or its target has not moved away; then it visits the edge of a valid object, after pushing a weak one, and does nothing for any other word |
| EdgeVisiting.EdgeVisitor.ObjectIterate | mmtk/src/object_scanning.rs:217-236 | the visiting loop over the reference map, the weak referent skipped: defined if and only if no visited slot's target has moved away, and then it visits the valid slots in order |
| EdgeVisiting.EdgeVisitor.ArrayIterate | mmtk/src/object_scanning.rs:262-277 | the same for the elements of an object array; any other array is left alone |
| EdgeVisiting.EdgeVisitor.ScanObject | mmtk/src/object_scanning.rs:297-325 | `scan_object` is defined if and only if nothing its slots lead to has moved away; then it hands over exactly the edges of valid strong slots, in order, and pushes exactly the weak targets |
| PlainVisits.EdgesInPlainTerms | mmtk/src/object_scanning.rs:297-325 | an edge is handed over if and only if it is the address of a strong slot that holds a valid object, slots told from maps and header words |
| PlainVisits.DefinedInPlainTerms | mmtk/src/object_scanning.rs:107-129 | the visit is defined if and only if no strong slot still names an object that has been evacuated and moved |
| PlainVisits.WeakSeenInPlainTerms | mmtk/src/object_scanning.rs:118-120 | a visit that is defined pushes a word if and only if a strong slot holds it and what it refers to has a class id in the weak range |
| FullCollection.CollectGarbage | mmtk/src/scanning.rs:415-422 | root scan, packets and worklist together, whatever was left on the weak stack: the final heap is isomorphic to the reachable one, exactly the reachable objects are traced, every word is as `PlainTerms.CollectionInPlainTerms` says, the weak stack is what was left there and exactly the discovered weak references, every buffer is back, every lock word is as the conditions above say, and the own ones of roots are right |
| FullCollection.RootLocks | mmtk/src/scanning.rs:250-268 | the monitors of a root's two lock words are pinned roots: its own lock word is right after every collection, and its class's if no slot target's own lock names a foreign monitor |
| FullCollection.RootScanStartsCollection | mmtk/src/scanning.rs:104-123 | what a root scan reports, on top of any weak stack, is a valid start for every collection result above, however it was cut into packets |
| NextCollection.NextIsWellFormedExactly | mmtk/src/object_scanning.rs:181-214 | the heap of images a finished collection leaves is one the next may start from, for every plan and root set that fit it, if and only if every own lock word of a reachable object, and every class lock word no scan came across, names a monitor that did not move and is retained, or is thin |
| NextCollection.NextCollectionRuns | mmtk/src/scanning.rs:359-361 | under that condition the next collection has a finished run from any listing of its roots, and its weak stack begins with everything the last one left |
| RootsReporting.RootsWorkFactory.Report | mmtk/src/scanning.rs:104-123 | the reported prefix becomes a packet, the reported buffer is consumed once, and a fresh buffer is issued |
| RootsReporting.RootsWorkFactory.Release | mmtk/src/api.rs:365-368 | the last buffer is consumed without becoming a packet; then every issued buffer has been consumed exactly once, in order |
| RootsReporting.RootsClosure.constructor | mmtk/src/scanning.rs:141-149 | starts with an empty history and an issued buffer, and delivers nothing |
| RootsReporting.RootsClosure.DoWork | mmtk/src/scanning.rs:151-159 | packets followed by the buffer's prefix are the reported objects in order, every packet is full, and there is room afterwards |
| RootsReporting.RootsClosure.Flush | mmtk/src/scanning.rs:161-169 | a non-empty buffer is handed over whole and replaced; an empty one is kept; the history is delivered |
| RootsReporting.RootsClosure.Drop | mmtk/src/scanning.rs:171-182 | everything reported has been delivered, in full packets but for the last, none empty, and all buffers are back |
| RootsReporting.PacketCount | mmtk/src/scanning.rs:151-182 | with one capacity throughout, n reports make exactly ceil(n / capacity) packets |
| RootsReporting.AtMostSoManyPackets | mmtk/src/scanning.rs:43-43 | whatever capacity each buffer gets, n reports make at most ceil(n / 4096) packets |
| RootScanning.RootScanner.MarkObject | mmtk/src/scanning.rs:204-219 | the recursion reports exactly the post-order closure over inflated monitors, and pushes exactly its weak references, for any buffer capacity and any flush on the way |
| RootScanning.RootScanner.MarkLockWords | mmtk/src/scanning.rs:250-268 | reports the closure of the class's monitor and then of the own one |
| RootScanning.RootScanner.MarkField | mmtk/src/scanning.rs:222-232 | reports the closure of a valid object in the heap range and nothing for any other word |
| RootScanning.RootScanner.MarkConservative | mmtk/src/scanning.rs:234-247 | the masked address is the exact scanned word, so its closure is what is reported |
| RootScanning.RootScanner.MarkRange | mmtk/src/scanning.rs:295-324 | reports, for every word from the first to the last inclusive, its closure if it is aligned, in range and a valid object |
| RootScanning.RootScanner.MarkProgramStack | mmtk/src/scanning.rs:326-337 | the stack range first, then the registers and the word after them |
| RootScanning.RootScanner.MarkModules | mmtk/src/scanning.rs:270-293 | reports the closures of the valid module entries in order |
| RootScanning.RootScanner.MarkThreads | mmtk/src/scanning.rs:343-350 | walks the linked list to its end and reports every thread's ranges in list order |
| RootScanning.RangesOfEach | mmtk/src/scanning.rs:343-350 | along the list every thread has its ranges, at its place |
| RootScanning.RootScanner.ScanRootsInMutatorThread | mmtk/src/scanning.rs:400-413 | one thread with its own reporter: everything found is delivered by the time the reporter is dropped |
| RootScanning.RootScanner.ScanRootsInAllMutatorThreads | mmtk/src/scanning.rs:339-352 | all threads with one reporter, delivered in well-filled packets |
| RootScanning.RootScanner.ScanVmSpecificRoots | mmtk/src/scanning.rs:415-422 | the packets put together are the roots of all threads and then of the modules, in order; nothing is lost at a flush, at a drop or between the two reporters, and the packets of each reporter are well filled |
| RootScanning.WeakOfExactly | mmtk/src/scanning.rs:211-213 | an object is on the weak stack after root scanning if and only if it was reported and its class id lies from the lowest to the highest weak id |
| RootProperties.RootsListExactly | mmtk/src/scanning.rs:184-352 | an object is reported if and only if inflated locks lead to it from a valid object between the first and the last heap address that a module entry names, or an aligned word on a stack or in registers |
| PlainTerms.MonitorsInPlainTerms | mmtk/src/scanning.rs:250-268 | the locks lead from an object to exactly the valid objects in the heap range that its class's or its own lock word names with the lowest bit set |
| RootProperties.ReportInOrder | mmtk/src/scanning.rs:326-352 | threads are reported in list order, each with its stack before its registers, and then the modules in their order |
| RootProperties.RangeInOrder | mmtk/src/scanning.rs:306-320 | a range is reported from its first word to its last: the report of any first part, then that of the rest |
| RootProperties.RootsCoveredExactly | mmtk/src/scanning.rs:270-352 | what the scanning methods ask of a rank is that it covers the root words of threads and modules, and nothing else |
| RootProperties.RootsListMonitorsFirst | mmtk/src/scanning.rs:204-219 | in the whole report every valid monitor of a reported object comes before it |
| RootProperties.InLockClosure | mmtk/src/scanning.rs:204-268 | marking an object reports exactly what a chain of inflated locks leads to |
| RootProperties.MarkingEndsExactly | mmtk/src/scanning.rs:204-268 | for any set of objects, the recursion ends for all of them if and only if there is a rank that covers them |
| RootProperties.ClosureIgnoresRank | mmtk/src/scanning.rs:204-268 | the report is the same whichever rank witnesses that it ends |
| WeakReferences.WeakRefProcessor.NullifySlot | mmtk/src/scanning.rs:374-387 | for a tracer and a reachability test that are functions of the reference: the loop body clears the slot and sets the flag if and only if the referent is in range and unreachable |
| WeakReferences.WeakRefProcessor.Nullify | mmtk/src/scanning.rs:364-389 | for such a tracer and test: ends with an empty stack, every dead referent cleared and every other word unchanged, and the flag set if and only if some referent was dead |
| WeakReferences.NullifiedExactly | mmtk/src/scanning.rs:366-388 | a word becomes null if and only if it is the one 16 bytes and the referent offset after a traced entry and holds an address between the first and the last of the heap that is unreachable once traced; every other word is unchanged, and the flag is set if and only if there is such a word |
| WeakReferences.NullifiedTwice | mmtk/src/scanning.rs:366-388 | clearing in two goes is clearing all at once: neither order nor duplicate entries matter |
| WeakReferences.SomeDeadSplits | mmtk/src/scanning.rs:380-385 | the flag for all slots is the flag for some of them, or for the rest after those were cleared |
| WeakReferences.NullifiedChangesExactly | mmtk/src/scanning.rs:378-386 | memory changes if and only if some referent was dead and not already null |
| WeakReferences.RetainingTracerClearsNothing | mmtk/src/scanning.rs:377-380 | with a tracer that retains what it traces, no referent is ever cleared and the flag stays unset |
| WeakPass.NullifyWithCollector | mmtk/src/scanning.rs:364-389 | after any finished collection, with that collection's tracer, and with entries of earlier collections on the stack: the stack is emptied, no referent is cleared and no word of a retained object changes, exactly the objects that only the stack leads to are traced in addition and left queued, and where one moved its old address holds a forwarding word |
| PlainTerms.PassInPlainTerms | mmtk/src/scanning.rs:366-378 | what that pass traces in addition are exactly the valid objects that are entries of the stack or in the word 16 bytes and the referent offset after one |
| WeakPass.NullifyEntry | mmtk/src/scanning.rs:366-388 | one round reads the referent through the traced entry, traces the referent, and clears nothing |
| WeakPass.ClearIfDead | mmtk/src/scanning.rs:378-386 | clears the slot if and only if the referent is in the heap range and its traced reference is not reachable |
| Synchronizer.Conservation | mmtk/src/api.rs:340-351 | in every interleaving, handled requests, the one in hand and the queue are the accepted sends in order; the i-th upcall stops the mutators if the i-th accepted request is an Acquire and resumes them if it is a Release, for the thread it names; the i-th response is Acquired if and only if it is an Acquire; and each lags by at most one |
| Synchronizer.LockGuardsAcquire | mmtk/src/api.rs:342-350 | in every interleaving the local lock is held only while an Acquire is served, and whenever an upcall has been made and not answered it is held if and only if that was for an Acquire |
| Synchronizer.SendsAreLostOrAccepted | mmtk/src/collection.rs:38-65 | every send is accepted in order or was made before initialisation and is lost |
| Synchronizer.RunKeepsInv | mmtk/src/api.rs:339-351 | the invariant behind these results holds after every event of every interleaving |
| Synchronizer.ThreadWaitsOnlyForRequests | mmtk/src/api.rs:339-351 | the local lock is free whenever the thread could want it, so the thread can step if and only if it has work |
| Synchronizer.ThreadDrains | mmtk/src/api.rs:340-351 | left alone, from any reachable state, the thread serves all accepted requests and comes to rest in exactly the steps counted |
| Synchronizer.MisfireExactly | mmtk/src/api.rs:341-350 | served requests never stop stopped mutators or resume running ones if and only if they alternate, beginning with Acquire |
| Synchronizer.MutatorsStoppedAndResumedInTurn | mmtk/src/api.rs:341-350 | in every interleaving, if accepted requests alternate no upcall misfires, and once all are served also only if |
| Synchronizer.RestMatchesLastRequest | mmtk/src/api.rs:339-351 | at rest the mutators are stopped if and only if the last accepted request was Acquire |
| Synchronizer.SendLeavesMutators | mmtk/src/collection.rs:34-65 | after every run, a send of either request returns with the mutators stopped if and only if they were stopped before it |
| Synchronizer.StopReturnsBeforeMutatorsStop | mmtk/src/collection.rs:34-57 | a run in which the request has been sent and no mutator has stopped |
| Synchronizer.Machine.StopAllMutatorsRequest | mmtk/src/collection.rs:34-57 | only sends an Acquire, as the send event says |
| Synchronizer.Machine.ResumeMutatorsRequest | mmtk/src/collection.rs:59-65 | only sends a Release, as the send event says |
| Synchronizer.Machine.Init | mmtk/src/api.rs:321-360 | the first initialisation installs the channel and starts the thread, and recovers no lost request |
| Synchronizer.Machine.HandleNext | mmtk/src/api.rs:340-351 | one turn of the loop is that request's sequence of thread steps, ending at the loop head with the lock free |
| Synchronizer.Machine.HandleAcquire | mmtk/src/api.rs:342-346 | takes the lock, stops the mutators for the thread named, answers Acquired and releases the lock, in that order |
| Synchronizer.Machine.HandleRelease | mmtk/src/api.rs:347-350 | resumes the mutators for the thread named and answers Released, without the lock |
| Synchronizer.Machine.Serve | mmtk/src/api.rs:340-352 | serving until the channel is empty handles everything accepted, in order: stop and Acquired for each Acquire, resume and Released for each Release |
| Abi.AlignPtrIsGreatestMultipleBelow | mmtk/src/scanning.rs:197-202 | masking gives the greatest multiple of the alignment not above the address, for every power-of-two alignment of a 64-bit word |
| Abi.IsPtrAlignedExactly | mmtk/src/scanning.rs:190-195 | the test accepts exactly the multiples of the alignment, the fixpoints of `align_ptr` |
| Abi.AlignPtrDropsTagBits | mmtk/src/scanning.rs:197-202 | masking recovers an aligned pointer from under any smaller bits |
| Abi.RoundToNextMultipleIsLeast | mmtk/src/abi.rs:97-99 | rounding gives the least multiple not below the value if and only if the 64-bit sum does not wrap, and 0 when it does |
| Abi.ArraySizeBounds | mmtk/src/abi.rs:175-182 | for all non-negative 32-bit lengths and strides and every alignment the size does not overflow, holds header and elements, and is the aligned size above them |
| Abi.PlainSizeBounds | mmtk/src/abi.rs:116-122 | the size of a plain object is the aligned size at or above its class's size, less than one alignment more |
| Abi.LengthWordExactly | mmtk/src/abi.rs:80-88 | a header word has this length and this stride, any 32-bit numbers, if and only if they are its low and its high half in two's complement |
| Abi.ArraySizeOfFields | mmtk/src/abi.rs:175-182 | for every length and stride below 2^31 the array with header word length + stride * 2^32 has the aligned size at or above 24 + length * stride |
| Abi.ElementAddressOfFields | mmtk/src/abi.rs:184-188 | element i of such an array is i strides after its 24 bytes of header |
| Abi.ElementsInsideAndDisjoint | mmtk/src/abi.rs:184-188 | elements lie after the header, inside `size`, and do not overlap |
| Abi.ElementSlotsAreElementAddresses | mmtk/src/object_scanning.rs:283-286 | for an array of two or more elements, the loop's slots are the element addresses if and only if the stride is a word |
| Abi.FieldSlotsExactly | mmtk/src/object_scanning.rs:242-250 | a word is a slot of the first n map entries if and only if one of them names it that is not at the referent offset of a class with an id in the weak range |
| Abi.NumFields | mmtk/src/abi.rs:163-172 | returns the position of the first terminator |
| Abi.LockWordArithmetic | mmtk/src/abi.rs:191-207 | the masks mean: odd is inflated, untagging clears the low bit, tagging sets it |
| Abi.TagRoundTrip | mmtk/src/abi.rs:191-207 | untagging a tagged word gives it back if and only if it is even, tagging an untagged word if and only if it was inflated |
| Heap.SlotsInside | mmtk/src/object_scanning.rs:239-294 | every slot a scan looks at lies inside the object and past its header |

## Left out

- mmtk-core itself: the Immix plan, allocators, atomic forwarding, valid-object bits and the scheduler; what is assumed of them is listed above.
- Parallel tracing: races on slots and lock words are resolved by atomics inside mmtk-core, so nodes are scanned one at a time, in any order.
- Upcalls, C layout and thread-local casts: stack and register ranges, the thread list, the modules and the class table are inputs.
- Undefined behaviour: after `scan_object` has dereferenced a forwarding word as a class pointer nothing is said of it; `TwoPhase.DirectRefinesTwoPhase` takes such a target not to be pushed as weak.
- Conversion panics: a negative array length or a reference-map entry outside 32 bits makes the source panic (`try_into().unwrap()`); `World.WellFormed` excludes both, and words of an object narrower than 8 bytes are not told apart.
- Abi.ElementsInsideAndDisjoint: does not cover a negative index, whose sign-extended product would wrap.
- RootScanning.RootScanner.MarkRange: addresses are unbounded integers, so a range that ends at the last word of the 64-bit address space, where the loop would wrap, is not covered.
- WeakReferences.WeakRefProcessor.NullifySlot: as for the whole loop, next.
- WeakReferences.WeakRefProcessor.Nullify: the tracer and the reachability test are fixed functions of the reference during one pass; what a tracer changes in the heap meanwhile is in `WeakPass`, for the collector's tracer, and not for others.
- WeakPass.NullifyWithCollector: asks that an entry left on the stack still be the address of a valid weak reference, and that the referent of a weak reference be null or a valid object, because what mmtk-core's tracer does with any other word is not part of this model.
- TwoPhase.DirectRefinesTwoPhase: is stated for nodes whose slot targets have no inflated lock word, because `scan_object` does not trace monitors at all (`mmtk/src/object_scanning.rs:166-175`) and the two forms then differ.
- Synchronizer.Machine.Init: a second initialisation, which replaces both channels, is not covered.
- The end of the synchronizer loop: it needs the sender to be dropped, which never happens after initialisation.
- The handler called after weak references, `Display` and logging, and the entry points of `api.rs` that only forward: no logic of their own.
- `object_pinning`: the feature is not declared in `mmtk/Cargo.toml`.
- `report_edges_and_renew_buffer`: of the same shape as the reporter of nodes, and unused by the root scans.
- `reference_glue.rs`, `active_plan.rs`, `edges.rs` and `binding.rs`: stubs and trivial iterators.
