// Heaps the collector can be given, on which it does not do what one would expect.
module Examples {
  import opened Bits
  import opened Abi
  import opened Heap
  import opened Tracing
  import opened Invariant
  import opened LockWords
  import opened Evacuation
  import opened TwoPhase
  import opened Collection
  import opened RootScanning
  import opened RootProperties

  // ---------- small objects ----------

  /** Objects are aligned to 16 bytes, there are no arrays, and class id 9 is that of weak references. */
  const CONFIG: Config := Settings(4, 1, 0, 0, 9, 9, 0, 1024, 8192)

  const NODE := Rtti(7, 24, [0, -1]) // one reference
  const MONITOR := Rtti(8, 16, [-1]) // no reference
  const WEAK := Rtti(9, 24, [0, -1]) // a referent

  ghost predicate Small(c: Rtti)
  {
    c == NODE || c == MONITOR || c == WEAK
  }

  lemma Shapes()
    ensures Alignment(CONFIG) == 16
    ensures PlainSize(CONFIG, NODE) == 32 && PlainSize(CONFIG, WEAK) == 32 && PlainSize(CONFIG, MONITOR) == 16
    ensures MapLength(NODE.refMap) == 1 && MapLength(WEAK.refMap) == 1 && MapLength(MONITOR.refMap) == 0
  {
    assert Pow2(4) == 16;
    assert RoundToNextMultiple(24, 16) == 32;
    assert RoundToNextMultiple(16, 16) == 16;
    assert NODE.refMap[1..] == [-1];
    assert MapLength([-1]) == 0;
  }

  lemma SlotLists()
    ensures FieldSlots(CONFIG, NODE, 1) == [2]
    ensures FieldSlots(CONFIG, WEAK, 1) == [] && FieldSlots(CONFIG, MONITOR, 0) == []
  {
    assert FieldSlots(CONFIG, NODE, 0) == [] && FieldSlots(CONFIG, WEAK, 0) == [];
  }

  lemma SmallObject(w: World, o: nat)
    requires w.cfg == CONFIG && Small(w.Class(o))
    ensures w.Words(o) == if w.Class(o) == MONITOR then 2 else 4
    ensures w.Slots(o) == if w.Class(o) == NODE then [2] else []
    ensures w.IsWeak(o) <==> w.Class(o) == WEAK
    ensures !IsArrayId(w.cfg, w.Class(o).id)
  {
    Shapes();
    SlotLists();
  }

  /** Memory that is zero but for these words. */
  function MemoryOf(words: map<int, nat>): Memory
  {
    map a: int | 1024 <= a < 8192 && a % 8 == 0 :: if a in words then words[a] else 0
  }

  /** What is left to check of a heap of small objects. */
  ghost predicate SmallHeap(w: World, words: map<int, nat>)
  {
    && SmallTables(w, words)
    && (forall r {:trigger ClassSmall(w, r)} :: r in w.classes ==> ClassSmall(w, r))
    && (forall o {:trigger ObjectSmall(w, o)} :: o in w.objects ==> ObjectSmall(w, o))
    && (forall o, p {:trigger w.Separate(o, p)} :: o in w.objects && p in w.objects ==> w.Separate(o, p))
  }

  ghost predicate SmallTables(w: World, words: map<int, nat>)
  {
    && w.cfg == CONFIG && w.mem0 == MemoryOf(words) && w.classes.Keys == w.locks0.Keys
    && (forall a :: a in words ==> words[a] < TWO_64)
    && w.roots <= w.objects && (forall r :: r in w.roots ==> !w.Moves(r))
  }

  ghost predicate ClassSmall(w: World, r: nat)
    requires r in w.classes
  {
    && Small(w.classes[r]) && 0 < r < TWO_64 && r % 16 == 0 && LockSmall(w, w.Lock0(r))
  }

  ghost predicate LockSmall(w: World, lock: nat)
  {
    lock < TWO_64 && (lock % 2 == 1 ==> lock - 1 in w.objects)
  }

  ghost predicate ObjectSmall(w: World, o: nat)
  {
    && 1024 <= o <= 8160 && o % 16 == 0 && 1024 <= w.Dest(o) <= 8160 && w.Dest(o) % 16 == 0
    && w.Old(o, 0) in w.classes && LockSmall(w, w.Old(o, 1))
    && (forall k :: k in w.Slots(o) ==> w.Old(o, k) in w.objects)
  }

  lemma SmallClassOk(w: World, r: nat)
    requires w.cfg == CONFIG && r in w.classes && r in w.locks0 && ClassSmall(w, r)
    ensures w.ClassOk(r)
  {
    Shapes();
    LockWordArithmetic(w.Lock0(r));
  }

  lemma SmallMemory(words: map<int, nat>, a: int)
    requires 1024 <= a <= 8160 && a % 16 == 0 && forall b :: b in words ==> words[b] < TWO_64
    ensures forall k :: 0 <= k < 4 ==> Readable(MemoryOf(words), a, k) && Word(MemoryOf(words), a, k) < TWO_64
  {
    forall k | 0 <= k < 4
      ensures Readable(MemoryOf(words), a, k) && Word(MemoryOf(words), a, k) < TWO_64
    {
      assert (a + 8 * k) % 8 == 0;
    }
  }

  lemma SmallObjectOk(w: World, words: map<int, nat>, o: nat)
    requires w.cfg == CONFIG && w.mem0 == MemoryOf(words) && forall a :: a in words ==> words[a] < TWO_64
    requires ObjectSmall(w, o) && Small(w.Class(o))
    ensures w.ObjectOk(o) && w.DestOk(o)
  {
    hide MemoryOf;
    hide Small;
    SmallObject(w, o);
    SmallMemory(words, o);
    SmallMemory(words, w.Dest(o));
    SmallRest(w, o);
  }

  /** An object whose words can be read is well-formed. */
  lemma SmallRest(w: World, o: nat)
    requires w.cfg == CONFIG && ObjectSmall(w, o) && w.Words(o) <= 4 && !IsArrayId(w.cfg, w.Class(o).id)
    requires forall k :: 0 <= k < 4 ==> Readable(w.mem0, o, k) && w.Old(o, k) < TWO_64
    requires forall k :: 0 <= k < 4 ==> Readable(w.mem0, w.Dest(o), k)
    ensures w.ObjectOk(o) && w.DestOk(o)
  {
    hide World.Words;
    hide World.Slots;
    hide World.Class;
    hide IsArrayId;
    hide FieldIsInflatedLock;
    hide FieldAlignedLockRef;
    LockWordArithmetic(w.Old(o, 1));
  }

  lemma SmallHeapIsWellFormed(w: World, words: map<int, nat>)
    requires SmallHeap(w, words)
    ensures w.WellFormed()
  {
    forall r | r in w.classes
      ensures w.ClassOk(r)
    {
      assert ClassSmall(w, r);
      SmallClassOk(w, r);
    }
    forall o | o in w.objects
      ensures w.ObjectOk(o) && w.DestOk(o)
    {
      assert ObjectSmall(w, o);
      assert ClassSmall(w, w.Old(o, 0));
      SmallObjectOk(w, words, o);
    }
  }

  /** A heap in which nothing moves, with its objects far apart. */
  ghost predicate StillHeap(w: World, words: map<int, nat>)
  {
    && SmallTables(w, words) && w.plan == map[]
    && (forall r {:trigger ClassSmall(w, r)} :: r in w.classes ==> ClassSmall(w, r))
    && (forall o {:trigger ObjectSmall(w, o)} :: o in w.objects ==> ObjectSmall(w, o) && o % 256 == 0)
  }

  lemma StillSeparate(w: World, o: nat, p: nat)
    requires w.plan == map[] && w.Words(o) <= 4 && w.Words(p) <= 4 && o % 256 == 0 && p % 256 == 0
    ensures w.Separate(o, p)
  {
    if o != p {
      FarApart(o, p);
    }
  }

  lemma FarApart(o: nat, p: nat)
    requires o % 256 == 0 && p % 256 == 0 && o != p
    ensures o + 32 <= p || p + 32 <= o
  {
    if o < p {
      MultiplesApart(o, p, 256);
    } else {
      MultiplesApart(p, o, 256);
    }
  }

  lemma StillHeapIsWellFormed(w: World, words: map<int, nat>)
    requires StillHeap(w, words)
    ensures w.WellFormed()
  {
    hide World.WellFormed;
    hide World.Separate;
    forall o, p | o in w.objects && p in w.objects
      ensures w.Separate(o, p)
    {
      assert ObjectSmall(w, o) && ObjectSmall(w, p);
      assert ClassSmall(w, w.Old(o, 0)) && ClassSmall(w, w.Old(p, 0));
      SmallObject(w, o);
      SmallObject(w, p);
      StillSeparate(w, o, p);
    }
    SmallHeapIsWellFormed(w, words);
  }

  // ---------- a lock word that is lost, and a monitor that is dropped ----------

  /**
   * The root at 1024 refers to an object at 1536, whose own lock word names the monitor
   * at 2048, which moves to 4096. That monitor's own lock word names the monitor at 3072.
   */
  const LOCKED := World(
    CONFIG, map[64 := NODE, 80 := MONITOR], {1024, 1536, 2048, 3072},
    map[1024 := 1024, 1536 := 1536, 2048 := 4096, 3072 := 3072],
    MemoryOf(LOCKED_WORDS), map[64 := 0, 80 := 0], {1024}, [])

  const LOCKED_WORDS: map<int, nat> :=
    map[1024 := 64, 1040 := 1536, 1536 := 80, 1544 := 2049, 2048 := 80, 2056 := 3073, 3072 := 80]

  lemma LockedObjects(o: nat)
    requires o in LOCKED.objects
    ensures LOCKED.Class(o) == if o == 1024 then NODE else MONITOR
    ensures LOCKED.Words(o) == if o == 1024 then 4 else 2
    ensures LOCKED.Slots(o) == if o == 1024 then [2] else []
    ensures LOCKED.Old(o, 0) == if o == 1024 then 64 else 80
    ensures LOCKED.Old(o, 1) == if o == 1536 then 2049 else if o == 2048 then 3073 else 0
    ensures LOCKED.Dest(o) == if o == 2048 then 4096 else o
  {
    var w := LOCKED;
    if o == 1024 {
      assert w.Class(1024) == NODE;
    } else {
      assert w.Class(o) == MONITOR;
    }
    SmallObject(w, o);
  }

  lemma LockedSmall(o: nat)
    requires o in LOCKED.objects
    ensures ObjectSmall(LOCKED, o)
  {
    hide World.Words;
    hide World.Slots;
    hide World.Class;
    LockedObjects(o);
    assert o == 1024 ==> LOCKED.Old(o, 2) == 1536;
  }

  lemma LockedSeparate(o: nat, p: nat)
    requires o in LOCKED.objects && p in LOCKED.objects
    ensures LOCKED.Separate(o, p)
  {
    LockedObjects(o);
    LockedObjects(p);
  }

  lemma LockedClasses(r: nat)
    requires r in LOCKED.classes
    ensures ClassSmall(LOCKED, r)
  {
  }

  lemma LockedTables()
    ensures SmallTables(LOCKED, LOCKED_WORDS)
  {
  }

  lemma LockedIsWellFormed()
    ensures LOCKED.WellFormed()
  {
    hide SmallTables;
    hide ClassSmall;
    hide ObjectSmall;
    hide World.Separate;
    hide World.WellFormed;
    forall r | r in LOCKED.classes
      ensures ClassSmall(LOCKED, r)
    {
      LockedClasses(r);
    }
    forall o | o in LOCKED.objects
      ensures ObjectSmall(LOCKED, o)
    {
      LockedSmall(o);
    }
    forall o, p | o in LOCKED.objects && p in LOCKED.objects
      ensures LOCKED.Separate(o, p)
    {
      LockedSeparate(o, p);
    }
    LockedTables();
    SmallHeapIsWellFormed(LOCKED, LOCKED_WORDS);
  }

  lemma LockedNoMonitors()
    ensures Monitors(LOCKED, 1024) == []
  {
    LockedObjects(1024);
    LockWordArithmetic(0);
  }

  /** A single module entry without monitors is what a root scan reports. */
  lemma OneModule(w: World, rank: map<nat, nat>, r: nat)
    requires Ranked(w, rank) && ValidField(w, r) && r in rank && Monitors(w, r) == []
    ensures VmRoots(w, rank, [], [r]) == [r] && RootsCovered(w, rank, [], [r])
  {
    assert LockClosure(w, rank, r) == [r];
    assert [r][..0] == [];
    assert ModulesClosure(w, rank, [r]) == [] + FieldClosure(w, rank, r);
    assert VmRoots(w, rank, [], [r]) == [] + [r];
  }

  /** A root scan reports exactly the root of this heap, when a module refers to it. */
  lemma LockedIsReported()
    ensures LOCKED.WellFormed()
    ensures exists rank :: Ranked(LOCKED, rank) && RootsCovered(LOCKED, rank, [], [1024]) &&
                           VmRoots(LOCKED, rank, [], [1024]) == [1024] && LOCKED.roots == {1024}
  {
    hide World.WellFormed;
    hide Monitors;
    hide VmRoots;
    hide RootsCovered;
    LockedIsWellFormed();
    var rank := map[1024 := 0];
    LockedNoMonitors();
    assert AboveMonitors(LOCKED, rank, 1024);
    assert Ranked(LOCKED, rank);
    OneModule(LOCKED, rank, 1024);
  }

  lemma RootRefersTo(w: World, r: nat, k: int)
    requires r in w.roots && k in w.Slots(r) && w.Old(r, k) in w.objects
    ensures IsSlotTarget(w, w.Old(r, k))
  {
    ReachRoot(w, r);
    assert SlotRefersTo(w, r, k, w.Old(r, k));
  }

  lemma LockedTarget()
    ensures IsSlotTarget(LOCKED, 1536)
  {
    hide IsSlotTarget;
    hide World.Slots;
    LockedObjects(1024);
    assert LOCKED.Old(1024, 2) == 1536;
    RootRefersTo(LOCKED, 1024, 2);
  }

  lemma LockedKeeps()
    ensures Keeps(LOCKED, 1536) == {1536, 2048}
  {
    LockedObjects(1536);
    LockWordArithmetic(2049);
    LockWordArithmetic(0);
  }

  /** Nothing else is the target of a reachable object's slot. */
  lemma LockedOnlyTarget(u: nat)
    requires IsSlotTarget(LOCKED, u)
    ensures u == 1536
  {
    var p, k :| SlotRefersTo(LOCKED, p, k, u);
    LockedIsWellFormed();
    ReachIsObject(LOCKED, p);
    LockedSlot(p, k);
  }

  lemma LockedSlot(p: nat, k: int)
    requires p in LOCKED.objects && k in LOCKED.Slots(p)
    ensures LOCKED.Old(p, k) == 1536
  {
    LockedObjects(p);
  }

  lemma ReachIsObject(w: World, x: nat)
    requires w.WellFormed() && Reach(w, x)
    ensures x in w.objects
  {
    ReachExactly(w, x);
    if x !in w.roots {
      var u :| IsSlotTarget(w, u) && x in Keeps(w, u);
      KeepsObjects(w, u);
    }
  }

  lemma KeepsObjects(w: World, u: nat)
    requires w.WellFormed() && u in w.objects
    ensures Keeps(w, u) <= w.objects
  {
    assert w.ObjectOk(u) && w.ClassOk(w.Old(u, 0));
  }

  lemma LockedRetained()
    ensures Retained(LOCKED, 1536) && Retained(LOCKED, 2048) && !Retained(LOCKED, 3072)
  {
    LockedTarget();
    LockedKeeps();
    if u :| IsSlotTarget(LOCKED, u) && 3072 in Keeps(LOCKED, u) {
      LockedOnlyTarget(u);
    }
  }

  /**
   * After every collection of this heap, the lock word of 1536 still names the evacuated
   * monitor's old address; and the monitor at 3072, which the copy of that monitor names and
   * which did not move, has not been traced.
   */
  lemma OwnLockIsLost(weak: seq<nat>, roots: seq<nat>, picks: seq<nat>)
    requires IsCollection(LOCKED, weak, roots, picks) && Collect(LOCKED, weak, roots, picks).queue == []
    ensures var w, s := LOCKED, Collect(LOCKED, weak, roots, picks);
            && {1536, 2048} <= s.traced && w.Dest(2048) == 4096
            && Word(s.mem, 1536, 1) == 2049 && !LockSound(w, s.traced, 2049, Word(s.mem, 1536, 1))
            && 3072 !in s.traced && !w.Moves(3072)
            && Word(s.mem, 4096, 1) == 3073 && !LockSound(w, s.traced, 3073, Word(s.mem, 4096, 1))
  {
    CollectionFinishes(LOCKED, weak, roots, picks);
    LockedRetained();
    LockedLocks(LOCKED, Collect(LOCKED, weak, roots, picks));
  }

  lemma LockedLocks(w: World, s: State)
    requires w == LOCKED && w.WellFormed() && Finished(w, s)
    requires Retained(w, 1536) && Retained(w, 2048) && !Retained(w, 3072)
    ensures {1536, 2048} <= s.traced && w.Dest(2048) == 4096
    ensures Word(s.mem, 1536, 1) == 2049 && !LockSound(w, s.traced, 2049, 2049)
    ensures 3072 !in s.traced && !w.Moves(3072)
    ensures Word(s.mem, 4096, 1) == 3073 && !LockSound(w, s.traced, 3073, 3073)
  {
    hide World.WellFormed;
    hide Finished;
    hide LockSound;
    LockedObjects(1536);
    LockedObjects(2048);
    LockedObjects(3072);
    LockIsUnsound(w, s, 1536, 2048);
    LockIsUnsound(w, s, 2048, 3072);
  }

  lemma LockIsUnsound(w: World, s: State, v: nat, m: nat)
    requires w.WellFormed() && Finished(w, s) && Retained(w, v) && w.Old(v, 1) == m + 1
    requires v in w.objects && m in w.objects && (w.Moves(m) || !Retained(w, m))
    ensures v in s.traced && (m in s.traced <==> Retained(w, m))
    ensures Word(s.mem, w.Dest(v), 1) == m + 1 && !LockSound(w, s.traced, m + 1, m + 1)
  {
    hide World.WellFormed;
    hide Finished;
    TracedIsReachable(w, s, v);
    TracedIsReachable(w, s, m);
    LockNames(w, v, m);
    OwnLockAfterCollection(w, s, v);
  }

  lemma TaggedAddress(m: nat)
    requires m % 8 == 0 && m + 1 < TWO_64
    ensures FieldIsInflatedLock(m + 1) && FieldAlignedLockRef(m + 1) == m
  {
    LockWordArithmetic(m + 1);
  }

  lemma LockNames(w: World, v: nat, m: nat)
    requires w.WellFormed() && v in w.objects && m in w.objects && w.Old(v, 1) == m + 1
    ensures FieldIsInflatedLock(m + 1) && FieldAlignedLockRef(m + 1) == m
  {
    SizeFacts(w, v);
    assert w.ObjectOk(v) && w.ObjectOk(m);
    TaggedAddress(m);
  }

  /** And the scan that should have updated the word gives the class, which had no monitor, this one. */
  lemma ClassGainsMonitor(s: State)
    requires Inv(LOCKED, s) && 1536 in s.traced
    ensures LOCKED.Lock0(80) == 0 && Lock(ScanLocks(LOCKED, s, 1536).locks, 80) == 4097
  {
    LockedIsWellFormed();
    LockedTarget();
    LockedObjects(1536);
    LockedObjects(2048);
    LockWordArithmetic(2049);
    LockWordArithmetic(4096);
    ClassLockAfterScan(LOCKED, s, 1536);
  }

  // ---------- a monitor that marking never gets to the end of ----------

  /** An object whose class's lock word names it. */
  const CYCLIC := World(
    CONFIG, map[80 := MONITOR], {1024}, map[1024 := 1024], MemoryOf(map[1024 := 80]), map[80 := 1025],
    {1024}, [])

  lemma CyclicIsWellFormed()
    ensures CYCLIC.WellFormed()
  {
    var w := CYCLIC;
    SmallObject(w, 1024);
    assert ClassSmall(w, 80) && ObjectSmall(w, 1024);
    assert w.Separate(1024, 1024);
    SmallHeapIsWellFormed(w, map[1024 := 80]);
  }

  lemma CyclicObject()
    ensures Monitors(CYCLIC, 1024) == [1024]
  {
    hide FieldIsInflatedLock;
    hide FieldAlignedLockRef;
    LockWordArithmetic(1025);
    LockWordArithmetic(0);
  }

  lemma {:induction false} CyclicNeverEnds(depth: nat)
    ensures !EndsWithin(CYCLIC, 1024, depth)
  {
    if depth > 0 {
      CyclicNeverEnds(depth - 1);
      CyclicObject();
      assert 1024 in Monitors(CYCLIC, 1024);
    }
  }

  /** Marking this object, which a module may refer to, never ends; no rank covers it. */
  lemma MarkingNeverEnds()
    ensures CYCLIC.WellFormed() && IsRootWord(CYCLIC, [], [1024], 1024)
    ensures !Ends(CYCLIC, 1024)
    ensures forall rank :: Ranked(CYCLIC, rank) ==> 1024 !in rank
  {
    CyclicIsWellFormed();
    CyclicObject();
    forall depth
      ensures !EndsWithin(CYCLIC, 1024, depth)
    {
      CyclicNeverEnds(depth);
    }
    forall rank | Ranked(CYCLIC, rank)
      ensures 1024 !in rank
    {
      assert 1024 in rank ==> AboveMonitors(CYCLIC, rank, 1024);
    }
  }

  // ---------- a weak reference that the visiting form misses ----------

  /** Two roots refer to the same weak reference, which moves from 1536 to 4096. */
  const SHARED := World(
    CONFIG, map[64 := NODE, 96 := WEAK], {1024, 1280, 1536}, map[1024 := 1024, 1280 := 1280, 1536 := 4096],
    MemoryOf(SHARED_WORDS), map[64 := 0, 96 := 0], {1024, 1280}, [])

  const SHARED_WORDS: map<int, nat> := map[1024 := 64, 1040 := 1536, 1280 := 64, 1296 := 1536, 1536 := 96]

  lemma SharedObjects(o: nat)
    requires o in SHARED.objects
    ensures SHARED.Class(o) == if o == 1536 then WEAK else NODE
    ensures SHARED.Words(o) == 4 && SHARED.Slots(o) == if o == 1536 then [] else [2]
    ensures SHARED.Old(o, 1) == 0 && (o != 1536 ==> SHARED.Old(o, 2) == 1536)
    ensures SHARED.Dest(o) == if o == 1536 then 4096 else o
    ensures SHARED.IsWeak(o) <==> o == 1536
  {
    var w := SHARED;
    if o == 1024 {
      assert w.Class(1024) == NODE;
    } else if o == 1280 {
      assert w.Class(1280) == NODE;
    } else {
      assert w.Class(1536) == WEAK;
    }
    SmallObject(w, o);
  }

  lemma SharedSmall(o: nat)
    requires o in SHARED.objects
    ensures ObjectSmall(SHARED, o)
  {
    hide World.Words;
    hide World.Slots;
    hide World.Class;
    SharedObjects(o);
  }

  lemma SharedSeparate(o: nat, p: nat)
    requires o in SHARED.objects && p in SHARED.objects
    ensures SHARED.Separate(o, p)
  {
    SharedObjects(o);
    SharedObjects(p);
  }

  lemma SharedClasses(r: nat)
    requires r in SHARED.classes
    ensures ClassSmall(SHARED, r)
  {
  }

  lemma SharedTables()
    ensures SmallTables(SHARED, SHARED_WORDS)
  {
  }

  lemma SharedIsWellFormed()
    ensures SHARED.WellFormed()
  {
    hide SmallTables;
    hide ClassSmall;
    hide ObjectSmall;
    hide World.Separate;
    hide World.WellFormed;
    forall r | r in SHARED.classes
      ensures ClassSmall(SHARED, r)
    {
      SharedClasses(r);
    }
    forall o | o in SHARED.objects
      ensures ObjectSmall(SHARED, o)
    {
      SharedSmall(o);
    }
    forall o, p | o in SHARED.objects && p in SHARED.objects
      ensures SHARED.Separate(o, p)
    {
      SharedSeparate(o, p);
    }
    SharedTables();
    SmallHeapIsWellFormed(SHARED, SHARED_WORDS);
  }

  ghost predicate NoLocks(w: World)
  {
    && (forall o :: o in w.objects ==> !FieldIsInflatedLock(w.Old(o, 1)))
    && (forall r :: r in w.classes ==> !FieldIsInflatedLock(w.Lock0(r)))
  }

  /** Without inflated lock words at the start there are none at any moment. */
  lemma NoLocksStay(w: World, s: State, o: nat)
    requires w.WellFormed() && NoLocks(w) && Inv(w, s) && o in w.objects
    ensures TargetsUnlocked(w, s, o)
  {
    forall k | k in w.Slots(o) && w.Old(o, k) in w.objects
      ensures Unlocked(w, s, w.Old(o, k))
    {
      var v := w.Old(o, k);
      assert w.ObjectOk(v) && LockOk(w, s.traced, w.Old(v, 0), Lock(s.locks, w.Old(v, 0)));
      NothingStorable(w, w.Old(v, 0));
    }
  }

  lemma NothingStorable(w: World, r: nat)
    requires NoLocks(w) && r in w.classes
    ensures forall m :: !Storable(w, r, m)
  {
  }

  lemma SharedHasNoLocks()
    ensures NoLocks(SHARED)
  {
    LockWordArithmetic(0);
    forall o | o in SHARED.objects
      ensures SHARED.Old(o, 1) == 0
    {
      SharedObjects(o);
    }
  }

  /** What the results below need to know of this heap. */
  ghost predicate SharedWeak(w: World)
  {
    && w.WellFormed() && NoLocks(w) && w.leftover == [] && w.roots == {1024, 1280} && w.objects == {1024, 1280, 1536}
    && w.Dest(1024) == 1024 && w.Dest(1280) == 1280 && w.Moves(1536)
    && !w.IsWeak(1024) && !w.IsWeak(1280) && w.IsWeak(1536)
    && w.Slots(1024) == [2] && w.Slots(1280) == [2] && w.Old(1024, 2) == w.Old(1280, 2) == 1536
    && w.Words(1280) == 4
  }

  lemma SharedIsSuch()
    ensures SharedWeak(SHARED)
  {
    SharedIsWellFormed();
    SharedHasNoLocks();
    SharedObjects(1024);
    SharedObjects(1280);
    SharedObjects(1536);
  }

  lemma TwoRoots(w: World, s: State, a: nat, b: nat)
    requires a != b && {a, b} <= w.objects && !w.Moves(a) && !w.Moves(b) && s.traced == {} && s.queue == []
    ensures TraceRoots(w, s, [a, b]) == s.(traced := {a, b}, queue := [a, b])
  {
    assert [a, b][..1] == [a] && [a][..0] == [];
    assert TraceRoots(w, s, []) == s;
    assert TraceRoots(w, s, [a]) == s.(traced := {a}, queue := [a]);
  }

  lemma SharedStarts(w: World)
    requires SharedWeak(w)
    ensures RootsAre(w, [1024, 1280]) && WeakRootsRecorded(w, [])
    ensures TraceRoots(w, Begin(w, []), [1024, 1280]) == State(w.mem0, w.locks0, [], {1024, 1280}, [1024, 1280])
  {
    hide World.WellFormed;
    hide TraceRoots;
    TwoRoots(w, Begin(w, []), 1024, 1280);
  }

  /** One of the two roots is scanned first. */
  lemma SharedStep(w: World, s: State)
    requires SharedWeak(w) && Inv(w, s) && s.traced == {1024, 1280} && s.mem == w.mem0 && s.queue == [1024, 1280]
    ensures var s' := Step(w, s, 0);
            Inv(w, s') && 1280 in s'.traced && 1280 in s'.queue && !CleanSlot(w, s', 1280, 2)
  {
    hide World.WellFormed;
    DequeueKeepsInv(w, s, 0);
    hide Inv;
    SharedTargetGetsDirty(w, s.(queue := Without(s.queue, 0)), 1024, 2, 1280, 2);
    assert 1280 in Without(s.queue, 0);
  }

  lemma SharedRun(w: World) returns (s: State)
    requires SharedWeak(w)
    ensures s == Collect(w, [], [1024, 1280], [0]) && IsCollection(w, [], [1024, 1280], [0])
    ensures Inv(w, s) && 1280 in s.traced && 1280 in s.queue && !CleanSlot(w, s, 1280, 2)
  {
    hide World.WellFormed;
    hide Inv;
    SharedStarts(w);
    StartKeeps(w, [], [1024, 1280]);
    var s0 := TraceRoots(w, Begin(w, []), [1024, 1280]);
    SharedStep(w, s0);
    assert Run(w, s0, []) == s0;
    RunSnoc(w, s0, [], 0);
    assert [] + [0] == [0];
    s := Collect(w, [], [1024, 1280], [0]);
  }

  /**
   * The node at 1280 is still queued when its weak reference has moved away: visiting it is not defined,
   * and the first phase misses a weak reference that the direct form records.
   */
  lemma VisitingMissesWeak()
    ensures var w, s := SHARED, Collect(SHARED, [], [1024, 1280], [0]);
            var direct, twoPhase := ScanNode(w, s, 1280), ScanThenProcess(w, s, 1280);
            && IsCollection(w, [], [1024, 1280], [0]) && 1280 in s.queue
            && !CleanSlots(w, s, 1280, w.Slots(1280))
            && s.weak <= twoPhase.weak
            && direct.weak != s.weak + ForwardAll(w, twoPhase.weak[|s.weak|..])
  {
    SharedIsSuch();
    MissesWeak(SHARED);
  }

  lemma MissesWeak(w: World)
    requires SharedWeak(w)
    ensures var s := Collect(w, [], [1024, 1280], [0]);
            var direct, twoPhase := ScanNode(w, s, 1280), ScanThenProcess(w, s, 1280);
            && IsCollection(w, [], [1024, 1280], [0]) && 1280 in s.queue
            && !CleanSlots(w, s, 1280, w.Slots(1280))
            && s.weak <= twoPhase.weak
            && direct.weak != s.weak + ForwardAll(w, twoPhase.weak[|s.weak|..])
  {
    hide World.WellFormed;
    hide Inv;
    var s := SharedRun(w);
    assert 2 in w.Slots(1280);
    assert !WeakSlotClean(w, s, 1280, 2);
    NoLocksStay(w, s, 1280);
    DirectRefinesTwoPhase(w, s, 1280);
  }
}
