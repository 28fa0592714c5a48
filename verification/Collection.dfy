// The results about whole collections: from the pinned roots to an empty queue.
module Collection {
  import opened Bits
  import opened Abi
  import opened Heap
  import opened Tracing
  import opened Invariant
  import opened ScanSteps
  import opened Evacuation

  // ---------- the starting state ----------

  function Begin(w: World, weak: seq<nat>): State
  {
    State(w.mem0, w.locks0, weak, {}, [])
  }

  /** The pinned root packets are traced one entry after the other; roots do not move. */
  function TraceRoots(w: World, s: State, roots: seq<nat>): State
  {
    if roots == [] then s else Trace(w, TraceRoots(w, s, roots[..|roots| - 1]), roots[|roots| - 1])
  }

  lemma TraceRootsSnoc(w: World, s: State, before: seq<nat>, r: nat)
    ensures TraceRoots(w, s, before + [r]) == Trace(w, TraceRoots(w, s, before), r)
  {
    assert (before + [r])[..|before|] == before;
  }

  ghost predicate RootsAre(w: World, roots: seq<nat>)
  {
    forall r :: r in roots <==> r in w.roots
  }

  /** On top of what was left there, root scanning has pushed exactly the weak references among the roots. */
  ghost predicate WeakRootsRecorded(w: World, weak: seq<nat>)
  {
    w.leftover <= weak && forall a :: a in weak <==> a in w.leftover || (a in w.roots && w.IsWeak(a))
  }

  lemma {:induction false} TraceRootsShape(w: World, weak: seq<nat>, roots: seq<nat>)
    requires w.WellFormed() && forall r :: r in roots ==> r in w.roots
    ensures var s := TraceRoots(w, Begin(w, weak), roots);
            && s.mem == w.mem0 && s.locks == w.locks0 && s.weak == weak
            && (forall r :: r in s.traced <==> r in roots)
            && s.traced <= w.roots
            && Enumerates(w, s, [])
  {
    var s := TraceRoots(w, Begin(w, weak), roots);
    if roots != [] {
      var before, last := roots[..|roots| - 1], roots[|roots| - 1];
      TraceRootsShape(w, weak, before);
      TraceEnumerates(w, TraceRoots(w, Begin(w, weak), before), last, []);
      assert roots == before + [last];
    }
  }

  /** Roots stay where they are, so tracing them has changed no word. */
  lemma StartObjects(w: World, traced: set<nat>)
    requires w.WellFormed() && traced <= w.roots
    ensures Objects(w, w.mem0, traced) && forall o :: o in traced ==> Reach(w, o)
  {
    forall o | o in traced
      ensures Held(w, w.mem0, traced, o) && Reach(w, o)
    {
      ReachRoot(w, o);
      assert forall k :: 0 <= k < w.Words(o) ==> WordOk(w, w.mem0, traced, o, k);
    }
  }

  lemma StartQueue(w: World, s: State)
    requires s.traced <= w.roots && Enumerates(w, s, [])
    ensures forall o :: o in s.traced ==> w.Dest(o) in s.queue
    ensures forall a {:trigger IsImage(w, s.traced, a)} :: a in s.queue ==> IsImage(w, s.traced, a)
  {
    forall o | o in s.traced
      ensures w.Dest(o) in s.queue
    {
      assert IsImage(w, s.traced, w.Dest(o));
      assert multiset(s.queue)[w.Dest(o)] == (multiset([]) + multiset(s.queue))[w.Dest(o)] == 1;
    }
    forall a | a in s.queue
      ensures IsImage(w, s.traced, a)
    {
      assert (multiset([]) + multiset(s.queue))[a] > 0;
    }
  }

  lemma StartKeeps(w: World, weak: seq<nat>, roots: seq<nat>)
    requires w.WellFormed() && RootsAre(w, roots) && WeakRootsRecorded(w, weak)
    ensures var s := TraceRoots(w, Begin(w, weak), roots);
            && Inv(w, s) && TriColour(w, s) && Enumerates(w, s, []) && s.traced == w.roots
  {
    var s := TraceRoots(w, Begin(w, weak), roots);
    TraceRootsShape(w, weak, roots);
    StartObjects(w, s.traced);
    StartQueue(w, s);
    hide Objects;
    hide Enumerates;
    forall a | a in s.weak
      ensures WeakOk(w, s.traced, a)
    {
      assert a in w.roots ==> !w.Moves(a);
    }
  }

  /** What a collection reaches: any run from the traced roots. */
  ghost function Collect(w: World, weak: seq<nat>, roots: seq<nat>, picks: seq<nat>): State
  {
    Run(w, TraceRoots(w, Begin(w, weak), roots), picks)
  }

  ghost predicate IsCollection(w: World, weak: seq<nat>, roots: seq<nat>, picks: seq<nat>)
  {
    && w.WellFormed() && RootsAre(w, roots) && WeakRootsRecorded(w, weak)
    && IsRun(w, TraceRoots(w, Begin(w, weak), roots), picks)
  }

  lemma CollectKeeps(w: World, weak: seq<nat>, roots: seq<nat>, picks: seq<nat>)
    requires IsCollection(w, weak, roots, picks)
    ensures var s := Collect(w, weak, roots, picks);
            && Inv(w, s) && TriColour(w, s) && w.roots <= s.traced && weak <= s.weak
            && Enumerates(w, s, Scanned(w, TraceRoots(w, Begin(w, weak), roots), picks))
  {
    StartKeeps(w, weak, roots);
    TraceRootsShape(w, weak, roots);
    RunKeeps(w, TraceRoots(w, Begin(w, weak), roots), picks);
  }

  // ---------- termination ----------

  ghost function Images(w: World, traced: set<nat>): set<nat>
  {
    set o | o in traced :: w.Dest(o)
  }

  lemma {:induction false} ImagesCount(w: World, traced: set<nat>)
    requires w.WellFormed() && traced <= w.objects
    ensures |Images(w, traced)| == |traced|
    decreases traced
  {
    if traced != {} {
      var o :| o in traced;
      ImagesCount(w, traced - {o});
      if w.Dest(o) in Images(w, traced - {o}) {
        var p :| p in traced - {o} && w.Dest(p) == w.Dest(o);
        DestInjective(w, o, p);
      }
      assert Images(w, traced) == Images(w, traced - {o}) + {w.Dest(o)};
    }
  }

  lemma SubsetCount(a: set<nat>, b: set<nat>)
    requires a <= b
    ensures |a| <= |b|
  {
    assert b == a + (b - a);
  }

  lemma {:induction false} SetAsMultiset(a: set<nat>)
    ensures |multiset(a)| == |a|
    decreases a
  {
    if a != {} {
      var x :| x in a;
      SetAsMultiset(a - {x});
      assert multiset(a) == multiset(a - {x}) + multiset{x};
    }
  }

  /**
   * However the queue is served, the nodes scanned and the nodes queued always
   * number the objects traced, so no run is longer than there are objects.
   */
  lemma RunIsBounded(w: World, weak: seq<nat>, roots: seq<nat>, picks: seq<nat>)
    requires IsCollection(w, weak, roots, picks)
    ensures var s := Collect(w, weak, roots, picks);
            |picks| + |s.queue| == |s.traced| <= |w.objects|
  {
    var s := Collect(w, weak, roots, picks);
    var start := TraceRoots(w, Begin(w, weak), roots);
    CollectKeeps(w, weak, roots, picks);
    StartKeeps(w, weak, roots);
    RunKeeps(w, start, picks);
    var scanned := Scanned(w, start, picks);
    ImagesCount(w, s.traced);
    var images := Images(w, s.traced);
    forall a
      ensures (multiset(scanned) + multiset(s.queue))[a] == multiset(images)[a]
    {
      assert a in images <==> IsImage(w, s.traced, a);
    }
    assert multiset(scanned) + multiset(s.queue) == multiset(images);
    assert |multiset(scanned)| == |scanned| && |multiset(s.queue)| == |s.queue|;
    SetAsMultiset(images);
    SubsetCount(s.traced, w.objects);
  }

  // ---------- what a finished trace has reached ----------

  lemma {:induction false} PathIsTraced(w: World, s: State, path: seq<nat>)
    requires w.WellFormed() && Inv(w, s) && w.roots <= s.traced && (forall o :: o in s.traced ==> Black(w, s, o))
    requires IsPath(w, path)
    ensures path[|path| - 1] in s.traced
    decreases |path|
  {
    if |path| > 1 {
      var before := path[..|path| - 1];
      assert forall i :: 0 <= i < |before| - 1 ==> Edge(w, before[i], before[i + 1]);
      PathIsTraced(w, s, before);
      var o, x := before[|before| - 1], path[|path| - 1];
      assert Edge(w, path[|path| - 2], path[|path| - 2 + 1]);
      var k :| k in w.Slots(o) && w.Old(o, k) in w.objects && x in Keeps(w, w.Old(o, k));
      assert Black(w, s, o) && Done(w, s, o, k);
    }
  }

  ghost predicate Finished(w: World, s: State)
  {
    Inv(w, s) && TriColour(w, s) && s.queue == [] && w.roots <= s.traced
  }

  lemma FinishedIsBlack(w: World, s: State, o: nat)
    requires Finished(w, s) && o in s.traced
    ensures Black(w, s, o)
  {
  }

  /**
   * On an empty queue the traced objects are exactly the reachable ones: the roots, the targets of
   * reachable objects' slots, and the monitors of those targets' lock words, but not theirs.
   */
  lemma TracedIsReachable(w: World, s: State, x: nat)
    requires w.WellFormed() && Finished(w, s)
    ensures x in s.traced <==> Reach(w, x)
    ensures x in s.traced <==> Retained(w, x)
  {
    ReachExactly(w, x);
    if Reach(w, x) {
      var path :| IsPath(w, path) && path[|path| - 1] == x;
      PathIsTraced(w, s, path);
    }
  }

  // ---------- the graph is preserved ----------

  /** What the k-th word of a reachable object must hold after the collection. */
  ghost function Forwarded(w: World, o: nat, k: int): nat
  {
    if k in w.Slots(o) && w.Old(o, k) in w.objects then w.Dest(w.Old(o, k)) else w.Old(o, k)
  }

  /**
   * `mem` holds at o's forwarded address an object of the same class, size and slots,
   * with forwarded references in the slots and the old words elsewhere.
   */
  ghost predicate ImageOf(w: World, mem: Memory, o: nat)
  {
    && w.ClassAt(mem, w.Dest(o)) == w.Class(o)
    && w.SizeAt(mem, w.Dest(o)) == w.SizeAt(w.mem0, o)
    && w.SlotsOf(mem, w.Dest(o)) == w.Slots(o)
    && (forall k :: 0 <= k < w.Words(o) ==> Word(mem, w.Dest(o), k) == Forwarded(w, o, k))
    && (forall k :: k in w.Slots(o) && w.Old(o, k) in w.objects ==> Reach(w, w.Old(o, k)))
  }

  /** The graph reachable in the starting heap, with one address for each object and the roots in place. */
  ghost predicate Isomorphic(w: World, mem: Memory)
  {
    && (forall r :: r in w.roots ==> w.Dest(r) == r)
    && (forall o, p :: Reach(w, o) && Reach(w, p) && w.Dest(o) == w.Dest(p) ==> o == p)
    && (forall o: nat :: Reach(w, o) ==> ImageOf(w, mem, o))
  }

  lemma FinishedObject(w: World, s: State, o: nat)
    requires w.WellFormed() && Finished(w, s) && o in s.traced
    ensures ImageOf(w, s.mem, o)
  {
    FinishedIsBlack(w, s, o);
    assert Held(w, s.mem, s.traced, o);
    forall k | 0 <= k < w.Words(o)
      ensures Word(s.mem, w.Dest(o), k) == Forwarded(w, o, k)
    {
      assert WordOk(w, s.mem, s.traced, o, k);
      if k in w.Slots(o) {
        assert Done(w, s, o, k);
      }
    }
    forall k | k in w.Slots(o) && w.Old(o, k) in w.objects
      ensures Reach(w, w.Old(o, k))
    {
      assert Done(w, s, o, k);
    }
    HeaderOfImage(w, s, o);
    SizeOfImage(w, s, o);
  }

  lemma FinishedIsIsomorphic(w: World, s: State)
    requires w.WellFormed() && Finished(w, s)
    ensures Isomorphic(w, s.mem)
  {
    forall o: nat | Reach(w, o)
      ensures o in s.traced && ImageOf(w, s.mem, o)
    {
      TracedIsReachable(w, s, o);
      FinishedObject(w, s, o);
    }
    forall o, p | Reach(w, o) && Reach(w, p) && w.Dest(o) == w.Dest(p)
      ensures o == p
    {
      DestInjective(w, o, p);
    }
  }

  lemma CollectionFinishes(w: World, weak: seq<nat>, roots: seq<nat>, picks: seq<nat>)
    requires IsCollection(w, weak, roots, picks) && Collect(w, weak, roots, picks).queue == []
    ensures Finished(w, Collect(w, weak, roots, picks))
  {
    CollectKeeps(w, weak, roots, picks);
  }

  /** Evacuation preserves the graph, in whatever order the workers take the nodes. */
  lemma EvacuationPreservesGraph(w: World, weak: seq<nat>, roots: seq<nat>, picks: seq<nat>)
    requires IsCollection(w, weak, roots, picks) && Collect(w, weak, roots, picks).queue == []
    ensures Isomorphic(w, Collect(w, weak, roots, picks).mem)
    ensures forall x :: x in Collect(w, weak, roots, picks).traced <==> Reach(w, x)
  {
    var s := Collect(w, weak, roots, picks);
    CollectionFinishes(w, weak, roots, picks);
    FinishedIsIsomorphic(w, s);
    forall x
      ensures x in s.traced <==> Reach(w, x)
    {
      TracedIsReachable(w, s, x);
    }
  }

  // ---------- what a trace leaves alone ----------

  /**
   * At every moment of every run, a word that has changed is a strong slot of a traced
   * object that stayed, the header of an evacuated one, or lies in an evacuated
   * object's destination. Slots a scan skips, words that are no valid object and objects
   * not traced keep what they held; a class lock word only ever gains a traced monitor.
   */
  lemma TraceFrame(w: World, weak: seq<nat>, roots: seq<nat>, picks: seq<nat>, a: int)
    requires IsCollection(w, weak, roots, picks) && a in w.mem0
    ensures var s := Collect(w, weak, roots, picks);
            && a in s.mem
            && (s.mem[a] != w.mem0[a] ==> Touched(w, s.traced, a))
            && (forall o, k :: o in s.traced && 0 <= k < w.Words(o) && k !in w.Slots(o) ==>
                  Word(s.mem, w.Dest(o), k) == w.Old(o, k))
            && (forall o, k :: o in s.traced && 0 <= k < w.Words(o) && w.Old(o, k) !in w.objects ==>
                  Word(s.mem, w.Dest(o), k) == w.Old(o, k))
            && (forall o, k :: o in w.objects && o !in s.traced && 0 <= k < w.Words(o) ==>
                  Word(s.mem, o, k) == w.Old(o, k))
            && (forall r :: r in w.classes && Lock(s.locks, r) != w.Lock0(r) ==>
                  exists m :: m in s.traced && Lock(s.locks, r) == FieldInflateLockRef(w.Dest(m)))
  {
    var s := Collect(w, weak, roots, picks);
    CollectKeeps(w, weak, roots, picks);
    assert s.mem[a] != w.mem0[a] ==> Touched(w, s.traced, a);
    forall r | r in w.classes && Lock(s.locks, r) != w.Lock0(r)
      ensures exists m :: m in s.traced && Lock(s.locks, r) == FieldInflateLockRef(w.Dest(m))
    {
      assert LockOk(w, s.traced, r, Lock(s.locks, r));
      var m :| LockTracedAs(w, s.traced, r, Lock(s.locks, r), m);
    }
    forall o, k | o in s.traced && 0 <= k < w.Words(o)
      ensures k !in w.Slots(o) || w.Old(o, k) !in w.objects ==> Word(s.mem, w.Dest(o), k) == w.Old(o, k)
    {
      assert Held(w, s.mem, s.traced, o) && WordOk(w, s.mem, s.traced, o, k);
    }
    forall o, k | o in w.objects && o !in s.traced && 0 <= k < w.Words(o)
      ensures Word(s.mem, o, k) == w.Old(o, k)
    {
      assert Intact(w, s.mem, o);
    }
  }

  // ---------- weak references ----------

  /** The forwarded address of a weak reference that is a root or in a strong slot of a reachable object. */
  ghost predicate Discovered(w: World, a: nat)
  {
    exists v :: DiscoveredAs(w, a, v)
  }

  ghost predicate DiscoveredAs(w: World, a: nat, v: nat)
  {
    && w.cfg.weakRefIdsMin <= w.Class(v).id <= w.cfg.weakRefIdsMax
    && w.Dest(v) == a && (v in w.roots || IsSlotTarget(w, v))
  }

  /**
   * After the trace the weak stack holds what was left on it, and on top of that exactly
   * the weak references of this collection, at their forwarded addresses.
   */
  lemma WeakReferencesDiscovered(w: World, weak: seq<nat>, roots: seq<nat>, picks: seq<nat>)
    requires IsCollection(w, weak, roots, picks) && Collect(w, weak, roots, picks).queue == []
    ensures w.leftover <= Collect(w, weak, roots, picks).weak
    ensures forall a :: a in Collect(w, weak, roots, picks).weak <==> a in w.leftover || Discovered(w, a)
  {
    var s := Collect(w, weak, roots, picks);
    CollectKeeps(w, weak, roots, picks);
    CollectionFinishes(w, weak, roots, picks);
    forall a
      ensures a in s.weak <==> a in w.leftover || Discovered(w, a)
    {
      if Discovered(w, a) {
        DiscoveredIsPushed(w, s, weak, a);
      }
      if a in s.weak {
        assert WeakOk(w, s.traced, a);
        if o :| o in s.traced && w.Dest(o) == a && w.IsWeak(o) && (o in w.roots || IsSlotTarget(w, o)) {
          assert DiscoveredAs(w, a, o);
        }
      }
    }
  }

  lemma DiscoveredIsPushed(w: World, s: State, weak: seq<nat>, a: nat)
    requires w.WellFormed() && Finished(w, s) && WeakRootsRecorded(w, weak) && weak <= s.weak && Discovered(w, a)
    ensures a in s.weak
  {
    var v :| DiscoveredAs(w, a, v);
    assert w.IsWeak(v);
    if v in w.roots {
      assert v in weak && !w.Moves(v);
    } else {
      var p, k :| SlotRefersTo(w, p, k, v);
      TracedIsReachable(w, s, p);
      FinishedIsBlack(w, s, p);
      assert Done(w, s, p, k);
    }
  }

  /** The stack holds exactly this collection's weak references if and only if each leftover is one of them. */
  lemma OnlyDiscoveredExactly(w: World, weak: seq<nat>, roots: seq<nat>, picks: seq<nat>)
    requires IsCollection(w, weak, roots, picks) && Collect(w, weak, roots, picks).queue == []
    ensures (forall a :: a in Collect(w, weak, roots, picks).weak <==> Discovered(w, a)) <==>
            (forall a :: a in w.leftover ==> Discovered(w, a))
  {
    WeakReferencesDiscovered(w, weak, roots, picks);
  }

  // ---------- lock words after a collection ----------

  /** The monitor a lock word names, if it is inflated, is traced and `now` names where it went. */
  ghost predicate LockSound(w: World, traced: set<nat>, before: nat, now: nat)
  {
    if FieldIsInflatedLock(before) then
      FieldAlignedLockRef(before) in traced && now == FieldInflateLockRef(w.Dest(FieldAlignedLockRef(before)))
    else now == before
  }

  /** A lock word that nothing is stored to stays sound: thin, or its monitor neither moves nor is dropped. */
  ghost predicate LockSurvives(w: World, lock: nat)
  {
    FieldIsInflatedLock(lock) ==> !w.Moves(FieldAlignedLockRef(lock)) && Retained(w, FieldAlignedLockRef(lock))
  }

  lemma UntouchedLock(w: World, s: State, lock: nat)
    requires w.WellFormed() && Finished(w, s) && lock < TWO_64
    requires FieldIsInflatedLock(lock) ==> FieldAlignedLockRef(lock) in w.objects
    ensures LockSound(w, s.traced, lock, lock) <==> LockSurvives(w, lock)
  {
    if FieldIsInflatedLock(lock) {
      var m := FieldAlignedLockRef(lock);
      LockWordArithmetic(lock);
      TagOfDest(w, m);
      TracedIsReachable(w, s, m);
    }
  }

  /**
   * After a whole collection an own lock word still holds what it held. It names its monitor's new
   * address, and the monitor is there, exactly when it was thin, or its monitor did not move and is
   * a root or kept by a slot target.
   */
  lemma OwnLockAfterCollection(w: World, s: State, v: nat)
    requires w.WellFormed() && Finished(w, s) && v in s.traced
    ensures var now := Word(s.mem, w.Dest(v), 1);
            && now == w.Old(v, 1)
            && (LockSound(w, s.traced, w.Old(v, 1), now) <==> LockSurvives(w, w.Old(v, 1)))
  {
    HeaderOfImage(w, s, v);
    SizeFacts(w, v);
    assert w.ObjectOk(v);
    UntouchedLock(w, s, w.Old(v, 1));
  }

  /** A class lock word is stored to only if an instance of the class is in a reachable slot. */
  lemma ClassLockUnscanned(w: World, s: State, r: nat)
    requires Inv(w, s) && r in w.classes && !ClassScanned(w, r)
    ensures Lock(s.locks, r) == w.Lock0(r)
  {
    assert LockOk(w, s.traced, r, Lock(s.locks, r));
  }

  /** Some slot target of the class has an inflated own lock. */
  ghost predicate OwnHeld(w: World, r: nat)
  {
    exists u, m :: StoresOwn(w, r, u, m)
  }

  /** Every inflated own lock of a slot target of the class names the class's own monitor. */
  ghost predicate Undisturbed(w: World, r: nat)
  {
    forall u, m :: StoresOwn(w, r, u, m) ==> ClassNames(w, r, m)
  }

  /** Some slot target of the class has an inflated own lock, and none names the class's monitor. */
  ghost predicate Overwritten(w: World, r: nat)
  {
    OwnHeld(w, r) && forall u, m :: StoresOwn(w, r, u, m) ==> !ClassNames(w, r, m)
  }

  /**
   * What becomes of a class lock word. If no own lock disturbs it, it names its monitor's
   * new address, and the monitor is there, exactly when a slot refers to an instance or it
   * would have survived untouched. If a slot refers to an instance with an inflated own
   * lock, it names the own monitor of such an instance, and so is lost whenever none of
   * them is its own. In the mixed case the last one scanned decides.
   */
  ghost predicate ClassLockAfter(w: World, locks: map<nat, nat>, traced: set<nat>, r: nat)
  {
    var sound := LockSound(w, traced, w.Lock0(r), Lock(locks, r));
    && (Undisturbed(w, r) ==> (sound <==> ClassScanned(w, r) || LockSurvives(w, w.Lock0(r))))
    && (OwnHeld(w, r) ==> OwnStored(w, r, Lock(locks, r)))
    && (Overwritten(w, r) ==> !sound)
  }

  lemma SlotTargetDone(w: World, s: State, u: nat)
    requires w.WellFormed() && Finished(w, s) && IsSlotTarget(w, u)
    ensures Keeps(w, u) <= s.traced && LockSettled(w, s, w.Old(u, 0))
    ensures FieldIsInflatedLock(w.Old(u, 1)) ==> OwnStored(w, w.Old(u, 0), Lock(s.locks, w.Old(u, 0)))
  {
    var p, k :| SlotRefersTo(w, p, k, u);
    TracedIsReachable(w, s, p);
    FinishedIsBlack(w, s, p);
    assert Done(w, s, p, k);
  }

  lemma ClassLockHeld(w: World, s: State, r: nat)
    requires w.WellFormed() && Finished(w, s) && OwnHeld(w, r)
    ensures OwnStored(w, r, Lock(s.locks, r))
  {
    var u, m :| StoresOwn(w, r, u, m);
    SlotTargetDone(w, s, u);
  }

  /** A class lock word that names a stored own monitor is right exactly if that is the class's. */
  lemma StoredIsForeign(w: World, traced: set<nat>, r: nat, lock: nat)
    requires w.WellFormed() && r in w.classes && traced <= w.objects && OwnStored(w, r, lock) && Overwritten(w, r)
    ensures !LockSound(w, traced, w.Lock0(r), lock)
  {
    var u, m :| StoresOwn(w, r, u, m) && lock == FieldInflateLockRef(w.Dest(m));
    SizeFacts(w, u);
    assert w.ObjectOk(u) && w.ClassOk(r);
    TagOfDest(w, m);
    if LockSound(w, traced, w.Lock0(r), lock) && FieldIsInflatedLock(w.Lock0(r)) {
      var n := FieldAlignedLockRef(w.Lock0(r));
      TagOfDest(w, n);
      DestInjective(w, m, n);
    }
  }

  lemma ClassLockUndisturbed(w: World, s: State, r: nat)
    requires w.WellFormed() && Finished(w, s) && r in w.classes && Undisturbed(w, r) && ClassScanned(w, r)
    ensures LockSound(w, s.traced, w.Lock0(r), Lock(s.locks, r))
  {
    var u :| IsSlotTarget(w, u) && w.Old(u, 0) == r;
    SlotTargetDone(w, s, u);
    assert LockOk(w, s.traced, r, Lock(s.locks, r));
  }

  lemma ClassLockAfterCollection(w: World, s: State, r: nat)
    requires w.WellFormed() && Finished(w, s) && r in w.classes
    ensures ClassLockAfter(w, s.locks, s.traced, r)
  {
    if OwnHeld(w, r) {
      ClassLockHeld(w, s, r);
      if Overwritten(w, r) {
        StoredIsForeign(w, s.traced, r, Lock(s.locks, r));
      }
    }
    if !ClassScanned(w, r) {
      ClassLockUnscanned(w, s, r);
      assert w.ClassOk(r);
      UntouchedLock(w, s, w.Lock0(r));
    } else if Undisturbed(w, r) {
      ClassLockUndisturbed(w, s, r);
    }
  }

  /** The monitors of a slot target's two lock words are always traced. */
  lemma SlotTargetMonitorsTraced(w: World, s: State, v: nat)
    requires w.WellFormed() && Finished(w, s) && IsSlotTarget(w, v)
    ensures RttiMonitor(w, v) + OwnMonitor(w, v) <= s.traced
  {
    SlotTargetDone(w, s, v);
  }

  /**
   * At every moment of every run a class lock word is as it was, or the tagged forwarded
   * address of a traced monitor: the class's own, or the own monitor of one of its slot
   * targets. Undisturbed, it is as it was or correctly retagged.
   */
  lemma RttiLocksRetagged(w: World, weak: seq<nat>, roots: seq<nat>, picks: seq<nat>, r: nat)
    requires IsCollection(w, weak, roots, picks) && r in w.classes
    ensures var s := Collect(w, weak, roots, picks);
            var now := Lock(s.locks, r);
            && (now == w.Lock0(r) || exists m :: LockTracedAs(w, s.traced, r, now, m))
            && (Undisturbed(w, r) ==> now == w.Lock0(r) || now == Retagged(w, w.Lock0(r)))
  {
    var s := Collect(w, weak, roots, picks);
    CollectKeeps(w, weak, roots, picks);
    assert LockOk(w, s.traced, r, Lock(s.locks, r)) && w.ClassOk(r);
  }

  // ---------- a collection can always be finished ----------

  lemma FinishingRun(w: World, start: State, picks: seq<nat>, scanned: seq<nat>) returns (all: seq<nat>)
    requires w.WellFormed() && IsRun(w, start, picks)
    requires var s := Run(w, start, picks); Inv(w, s) && TriColour(w, s) && Enumerates(w, s, scanned)
    ensures IsRun(w, start, all) && Run(w, start, all).queue == []
    decreases w.objects - Run(w, start, picks).traced, |Run(w, start, picks).queue|
  {
    hide World.WellFormed;
    hide Inv;
    hide TriColour;
    hide Enumerates;
    var s := Run(w, start, picks);
    all := picks;
    if s.queue != [] {
      var o := TakeNode(w, start, picks, s, 0, scanned);
      all := FinishingRun(w, start, picks + [0], scanned + [s.queue[0]]);
    }
  }

  /** From any starting point some run empties the queue, so the results about finished collections are not empty. */
  lemma CollectionExists(w: World, weak: seq<nat>, roots: seq<nat>) returns (picks: seq<nat>)
    requires w.WellFormed() && RootsAre(w, roots) && WeakRootsRecorded(w, weak)
    ensures IsCollection(w, weak, roots, picks) && Collect(w, weak, roots, picks).queue == []
  {
    StartKeeps(w, weak, roots);
    picks := FinishingRun(w, TraceRoots(w, Begin(w, weak), roots), [], []);
  }
}
