// Heaps on which class lock words are overwritten: that of a root's class, and one whose
// fate depends on the order in which nodes are scanned.
module ClassLockExamples {
  import opened Abi
  import opened Heap
  import opened Tracing
  import opened Invariant
  import opened ScanSteps
  import opened LockWords
  import opened Evacuation
  import opened Collection
  import opened RootScanning
  import opened RootProperties
  import opened Examples

  // ---------- the class lock word of a root is taken ----------

  /**
   * The root at 1024 refers to another instance of its class at 1536, whose own lock word
   * names the monitor at 3072; the class's lock word names the monitor at 2048.
   */
  const TAKEN := World(
    CONFIG, map[64 := NODE, 80 := MONITOR], {1024, 1536, 2048, 3072}, map[],
    MemoryOf(TAKEN_WORDS), map[64 := 2049, 80 := 0], {1024, 2048}, [])

  const TAKEN_WORDS: map<int, nat> :=
    map[1024 := 64, 1040 := 1536, 1536 := 64, 1544 := 3073, 1552 := 2048, 2048 := 80, 3072 := 80]

  lemma TakenObjects(o: nat)
    requires o in TAKEN.objects
    ensures TAKEN.Class(o) == if o <= 1536 then NODE else MONITOR
    ensures TAKEN.Slots(o) == if o <= 1536 then [2] else []
    ensures TAKEN.Old(o, 0) == if o <= 1536 then 64 else 80
    ensures TAKEN.Old(o, 1) == if o == 1536 then 3073 else 0
    ensures o <= 1536 ==> TAKEN.Old(o, 2) == if o == 1024 then 1536 else 2048
  {
    var w := TAKEN;
    if o <= 1536 {
      assert w.Class(o) == NODE;
    } else {
      assert w.Class(o) == MONITOR;
    }
    SmallObject(w, o);
  }

  lemma TakenSmall(o: nat)
    requires o in TAKEN.objects
    ensures ObjectSmall(TAKEN, o)
  {
    hide World.Slots;
    hide World.Class;
    TakenObjects(o);
  }

  lemma TakenTables()
    ensures SmallTables(TAKEN, TAKEN_WORDS)
  {
  }

  lemma TakenClasses(r: nat)
    requires r in TAKEN.classes
    ensures ClassSmall(TAKEN, r)
  {
  }

  lemma TakenIsWellFormed()
    ensures TAKEN.WellFormed()
  {
    hide SmallTables;
    hide ClassSmall;
    hide ObjectSmall;
    hide World.WellFormed;
    forall r | r in TAKEN.classes
      ensures ClassSmall(TAKEN, r)
    {
      TakenClasses(r);
    }
    forall o | o in TAKEN.objects
      ensures ObjectSmall(TAKEN, o)
    {
      TakenSmall(o);
    }
    TakenTables();
    StillHeapIsWellFormed(TAKEN, TAKEN_WORDS);
  }

  lemma TakenMonitors()
    ensures Monitors(TAKEN, 1024) == [2048] && Monitors(TAKEN, 2048) == []
  {
    TakenObjects(1024);
    TakenObjects(2048);
    LockWordArithmetic(2049);
    LockWordArithmetic(0);
  }

  /** A root scan reports exactly the roots of this heap, when a module refers to the first object. */
  lemma TakenIsReported()
    ensures TAKEN.WellFormed()
    ensures exists rank :: Ranked(TAKEN, rank) && RootsCovered(TAKEN, rank, [], [1024]) &&
                           VmRoots(TAKEN, rank, [], [1024]) == [2048, 1024] && TAKEN.roots == {1024, 2048}
  {
    hide World.WellFormed;
    hide Monitors;
    TakenIsWellFormed();
    var rank := map[1024 := 1, 2048 := 0];
    TakenMonitors();
    assert AboveMonitors(TAKEN, rank, 1024) && AboveMonitors(TAKEN, rank, 2048);
    assert Ranked(TAKEN, rank);
    OneMonitor(TAKEN, rank, 1024, 2048);
  }

  /** A single module entry with one monitor, which has none. */
  lemma OneMonitor(w: World, rank: map<nat, nat>, r: nat, m: nat)
    requires Ranked(w, rank) && ValidField(w, r) && {r, m} <= rank.Keys
    requires Monitors(w, r) == [m] && Monitors(w, m) == []
    ensures VmRoots(w, rank, [], [r]) == [m, r] && RootsCovered(w, rank, [], [r])
  {
    hide Monitors;
    assert AboveMonitors(w, rank, r);
    assert LockClosure(w, rank, m) == [m];
    SingleClosure(w, rank, [m], rank[r]);
    assert LockClosure(w, rank, r) == [m, r];
    assert [r][..0] == [];
    assert ModulesClosure(w, rank, [r]) == [] + FieldClosure(w, rank, r);
    assert VmRoots(w, rank, [], [r]) == [] + [m, r];
  }

  lemma TakenStores()
    ensures StoresOwn(TAKEN, 64, 1536, 3072)
    ensures forall u, m :: StoresOwn(TAKEN, 64, u, m) ==> m == 3072
    ensures FieldAlignedLockRef(2049) == 2048 && FieldIsInflatedLock(2049)
  {
    TakenObjects(1024);
    RootRefersTo(TAKEN, 1024, 2);
    TakenObjects(1536);
    LockWordArithmetic(3073);
    LockWordArithmetic(2049);
    LockWordArithmetic(0);
    forall u, m | StoresOwn(TAKEN, 64, u, m)
      ensures m == 3072
    {
      TakenObjects(u);
    }
  }

  /** If all inflated own locks of a class's slot targets name one foreign monitor, that is what the class gets. */
  lemma ForeignMonitor(w: World, s: State, r: nat, u: nat, m: nat)
    requires w.WellFormed() && Finished(w, s) && r in w.classes && StoresOwn(w, r, u, m)
    requires (forall u', m' :: StoresOwn(w, r, u', m') ==> m' == m) && !ClassNames(w, r, m)
    ensures Lock(s.locks, r) == FieldInflateLockRef(w.Dest(m))
    ensures !LockSound(w, s.traced, w.Lock0(r), Lock(s.locks, r))
  {
    hide World.WellFormed;
    hide Finished;
    hide LockSound;
    ClassLockAfterCollection(w, s, r);
    assert OwnHeld(w, r) && Overwritten(w, r);
    assert OwnStored(w, r, Lock(s.locks, r));
  }

  /**
   * After every collection of this heap the lock word of the root's class names another
   * object's monitor, although its own is a root, and would have survived untouched.
   */
  lemma RootClassLockIsTaken(weak: seq<nat>, roots: seq<nat>, picks: seq<nat>)
    requires IsCollection(TAKEN, weak, roots, picks) && Collect(TAKEN, weak, roots, picks).queue == []
    ensures var w, s := TAKEN, Collect(TAKEN, weak, roots, picks);
            && 1024 in w.roots && w.Old(1024, 0) == 64 && w.Lock0(64) == 2049 && LockSurvives(w, 2049)
            && Lock(s.locks, 64) == 3073 && !LockSound(w, s.traced, 2049, 3073)
  {
    var s := Collect(TAKEN, weak, roots, picks);
    CollectionFinishes(TAKEN, weak, roots, picks);
    TakenStores();
    TakenObjects(1024);
    ForeignMonitor(TAKEN, s, 64, 1536, 3072);
    LockWordArithmetic(3072);
  }

  // ---------- the last node scanned decides ----------

  /**
   * Two roots refer to instances of one class, at 1536 and 1792. The first has the class's
   * monitor at 2048 for its own, the second another one at 3072.
   */
  const MIXED := World(
    CONFIG, map[64 := NODE, 80 := MONITOR], {1024, 1280, 1536, 1792, 2048, 3072}, map[],
    MemoryOf(MIXED_WORDS), map[64 := 0, 80 := 2049], {1024, 1280}, [])

  const MIXED_WORDS: map<int, nat> :=
    map[1024 := 64, 1040 := 1536, 1280 := 64, 1296 := 1792, 1536 := 80, 1544 := 2049, 1792 := 80, 1800 := 3073,
        2048 := 80, 3072 := 80]

  lemma MixedObjects(o: nat)
    requires o in MIXED.objects
    ensures MIXED.Class(o) == if o <= 1280 then NODE else MONITOR
    ensures MIXED.Slots(o) == if o <= 1280 then [2] else []
    ensures MIXED.Old(o, 0) == if o <= 1280 then 64 else 80
    ensures MIXED.Old(o, 1) == if o == 1536 then 2049 else if o == 1792 then 3073 else 0
    ensures o <= 1280 ==> MIXED.Old(o, 2) == if o == 1024 then 1536 else 1792
  {
    var w := MIXED;
    if o <= 1280 {
      assert w.Class(o) == NODE;
    } else {
      assert w.Class(o) == MONITOR;
    }
    SmallObject(w, o);
  }

  lemma MixedSmall(o: nat)
    requires o in MIXED.objects
    ensures ObjectSmall(MIXED, o)
  {
    hide World.Slots;
    hide World.Class;
    MixedObjects(o);
  }

  lemma MixedTables()
    ensures SmallTables(MIXED, MIXED_WORDS)
  {
  }

  lemma MixedClasses(r: nat)
    requires r in MIXED.classes
    ensures ClassSmall(MIXED, r)
  {
  }

  lemma MixedIsWellFormed()
    ensures MIXED.WellFormed()
  {
    hide SmallTables;
    hide ClassSmall;
    hide ObjectSmall;
    hide World.WellFormed;
    forall r | r in MIXED.classes
      ensures ClassSmall(MIXED, r)
    {
      MixedClasses(r);
    }
    forall o | o in MIXED.objects
      ensures ObjectSmall(MIXED, o)
    {
      MixedSmall(o);
    }
    MixedTables();
    StillHeapIsWellFormed(MIXED, MIXED_WORDS);
  }

  lemma MixedNoMonitors(o: nat)
    requires o in MIXED.roots
    ensures Monitors(MIXED, o) == []
  {
    MixedObjects(o);
    LockWordArithmetic(0);
  }

  /** A root scan reports exactly the roots of this heap, when a module refers to each. */
  lemma MixedIsReported()
    ensures exists rank :: Ranked(MIXED, rank) && RootsCovered(MIXED, rank, [], [1024, 1280]) &&
                           VmRoots(MIXED, rank, [], [1024, 1280]) == [1024, 1280] && MIXED.roots == {1024, 1280}
  {
    hide Monitors;
    var rank := map[1024 := 0, 1280 := 0];
    MixedNoMonitors(1024);
    MixedNoMonitors(1280);
    assert AboveMonitors(MIXED, rank, 1024) && AboveMonitors(MIXED, rank, 1280);
    assert Ranked(MIXED, rank);
    TwoModules(MIXED, rank, 1024, 1280);
  }

  lemma TwoModules(w: World, rank: map<nat, nat>, a: nat, b: nat)
    requires Ranked(w, rank) && ValidField(w, a) && ValidField(w, b) && {a, b} <= rank.Keys
    requires Monitors(w, a) == [] && Monitors(w, b) == []
    ensures VmRoots(w, rank, [], [a, b]) == [a, b] && RootsCovered(w, rank, [], [a, b])
  {
    hide Monitors;
    assert LockClosure(w, rank, a) == [a] && LockClosure(w, rank, b) == [b];
    assert [a, b][..1] == [a] && [a][..0] == [];
    assert ModulesClosure(w, rank, [a]) == [] + [a];
    assert ModulesClosure(w, rank, [a, b]) == [a] + [b];
    assert VmRoots(w, rank, [], [a, b]) == [] + [a, b];
  }

  /** What the results below need to know of this heap. */
  ghost predicate Mixed(w: World)
  {
    && w.WellFormed() && w.roots == {1024, 1280} && w.leftover == [] && 80 in w.classes
    && w.objects == {1024, 1280, 1536, 1792, 2048, 3072} && w.plan == map[]
    && (forall o :: o in w.objects ==> !w.IsWeak(o) && (o !in w.roots ==> w.Slots(o) == []))
    && w.Slots(1024) == [2] && w.Slots(1280) == [2] && w.Old(1024, 2) == 1536 && w.Old(1280, 2) == 1792
    && w.Old(1536, 0) == 80 && w.Old(1792, 0) == 80
    && w.Lock0(80) == w.Old(1536, 1) == 2049 && w.Old(1792, 1) == 3073
  }

  lemma MixedIsSuch()
    ensures Mixed(MIXED)
  {
    hide World.WellFormed;
    hide World.Slots;
    hide World.Class;
    hide World.IsWeak;
    MixedIsWellFormed();
    forall o | o in MIXED.objects
      ensures !MIXED.IsWeak(o) && (o !in MIXED.roots ==> MIXED.Slots(o) == [])
    {
      MixedObjects(o);
      SmallObject(MIXED, o);
    }
    MixedObjects(1024);
    MixedObjects(1280);
    MixedObjects(1536);
    MixedObjects(1792);
  }

  /** Scanning a node with one slot leaves the tag of its target's own monitor in the class lock word. */
  lemma OneSlotScan(w: World, s: State, o: nat, v: nat)
    requires w.WellFormed() && Inv(w, s) && o in s.traced && w.Slots(o) == [2] && w.Old(o, 2) == v
    requires v in w.objects && FieldIsInflatedLock(w.Old(v, 1))
    ensures Lock(ScanNode(w, s, w.Dest(o)).locks, w.Old(v, 0)) == Retagged(w, w.Old(v, 1))
  {
    hide World.WellFormed;
    hide Inv;
    hide Quiet;
    HeaderOfImage(w, s, o);
    SlotContent(w, s, o, 2);
    ScanSlotStages(w, s, o, 2);
    ClassLockAfterScan(w, Trace(w, s, Word(s.mem, w.Dest(o), 2)), v);
    assert [2][..0] == [];
    assert ScanSlots(w, s, w.Dest(o), []) == s;
    assert ScanSlots(w, s, w.Dest(o), [2]) == ScanSlot(w, s, w.Dest(o), 2);
  }

  /** No queued node has a slot. */
  ghost predicate Slotless(w: World, s: State)
  {
    forall a :: a in s.queue ==> w.SlotsOf(s.mem, a) == []
  }

  /** From such a state a run can be finished, and it changes nothing but the queue. */
  lemma SlotlessFinish(w: World, start: State, picks: seq<nat>) returns (all: seq<nat>)
    requires IsRun(w, start, picks) && Slotless(w, Run(w, start, picks))
    ensures IsRun(w, start, all) && Run(w, start, all) == Run(w, start, picks).(queue := [])
    decreases |Run(w, start, picks).queue|
  {
    var s := Run(w, start, picks);
    all := picks;
    if s.queue != [] {
      RunSnoc(w, start, picks, 0);
      assert Step(w, s, 0) == s.(queue := Without(s.queue, 0));
      all := SlotlessFinish(w, start, picks + [0]);
    }
  }

  /** One of the two roots is scanned, then the other; i says which is first. */
  lemma BothScanned(w: World, start: State, i: nat, first: nat, last: nat) returns (s: State)
    requires Mixed(w) && i < 2 && first == [1024, 1280][i] && last == [1024, 1280][1 - i]
    requires Inv(w, start) && TriColour(w, start) && Enumerates(w, start, [])
    requires start.queue == [1024, 1280] && start.traced == {1024, 1280}
    ensures IsRun(w, start, [i, 0]) && s == Run(w, start, [i, 0])
    ensures Inv(w, s) && Enumerates(w, s, [first, last])
    ensures Lock(s.locks, 80) == Retagged(w, if i == 0 then 3073 else 2049)
  {
    hide Mixed;
    hide Inv;
    hide TriColour;
    hide Enumerates;
    hide Step;
    var s1 := Step(w, start, i);
    MixedWellFormed(w);
    StepKeeps(w, start, i, []);
    FirstScanned(w, start, i, first, last);
    s := Step(w, s1, 0);
    StepKeeps(w, s1, 0, [first]);
    SecondScanned(w, s1, last);
    assert [] + [first] == [first] && [first] + [last] == [first, last];
    TwoSteps(w, start, i);
  }

  lemma MixedWellFormed(w: World)
    requires Mixed(w)
    ensures w.WellFormed()
  {
  }

  lemma TwoSteps(w: World, start: State, i: nat)
    requires i < |start.queue| && Step(w, start, i).queue != []
    ensures IsRun(w, start, [i, 0]) && Run(w, start, [i, 0]) == Step(w, Step(w, start, i), 0)
  {
    hide Step;
    assert Run(w, start, []) == start && [] + [i] == [i] && [i] + [0] == [i, 0];
    RunSnoc(w, start, [], i);
    RunSnoc(w, start, [i], 0);
  }

  lemma SecondScanned(w: World, s: State, last: nat)
    requires Mixed(w) && Inv(w, s) && last in s.traced && last in w.roots && s.queue != [] && s.queue[0] == last
    ensures Lock(Step(w, s, 0).locks, 80) == Retagged(w, if last == 1280 then 3073 else 2049)
  {
    hide Inv;
    hide World.WellFormed;
    DequeueKeepsInv(w, s, 0);
    LockWordArithmetic(3073);
    LockWordArithmetic(2049);
    OneSlotScan(w, s.(queue := Without(s.queue, 0)), last, w.Old(last, 2));
  }

  lemma FirstScanned(w: World, start: State, i: nat, first: nat, last: nat)
    requires Mixed(w) && i < 2 && first == [1024, 1280][i] && last == [1024, 1280][1 - i]
    requires Inv(w, start) && start.queue == [1024, 1280] && start.traced == {1024, 1280}
    ensures var s1 := Step(w, start, i); s1.queue != [] && s1.queue[0] == last && last in s1.traced
    ensures last in w.roots
  {
    DequeueKeepsInv(w, start, i);
    assert Without(start.queue, i) == [last];
    ScanNodeBlackens(w, start.(queue := [last]), first);
  }

  lemma RestIsSlotless(w: World, s: State, first: nat, last: nat)
    requires Mixed(w) && Inv(w, s) && Enumerates(w, s, [first, last]) && {first, last} == {1024, 1280}
    ensures Slotless(w, s)
  {
    forall a | a in s.queue
      ensures w.SlotsOf(s.mem, a) == []
    {
      assert IsImage(w, s.traced, a);
      var o :| o in s.traced && w.Dest(o) == a;
      HeaderOfImage(w, s, o);
      assert (multiset([first, last]) + multiset(s.queue))[a] <= 1;
      assert a in multiset(s.queue);
      assert o !in w.roots;
    }
  }

  lemma MixedOrder(w: World, i: nat) returns (picks: seq<nat>)
    requires Mixed(w) && i < 2
    ensures IsCollection(w, [], [1024, 1280], picks) && Collect(w, [], [1024, 1280], picks).queue == []
    ensures Lock(Collect(w, [], [1024, 1280], picks).locks, 80) == Retagged(w, if i == 0 then 3073 else 2049)
  {
    var start := TraceRoots(w, Begin(w, []), [1024, 1280]);
    TwoRoots(w, Begin(w, []), 1024, 1280);
    StartKeeps(w, [], [1024, 1280]);
    var first, last := [1024, 1280][i], [1024, 1280][1 - i];
    var s := BothScanned(w, start, i, first, last);
    RestIsSlotless(w, s, first, last);
    picks := SlotlessFinish(w, start, [i, 0]);
  }

  /** Of two finished collections of one heap, one leaves the class lock word right and one does not. */
  lemma LastScannedDecides() returns (right: seq<nat>, wrong: seq<nat>)
    ensures MIXED.WellFormed() && !Undisturbed(MIXED, 80) && !Overwritten(MIXED, 80)
    ensures IsCollection(MIXED, [], [1024, 1280], right) && IsCollection(MIXED, [], [1024, 1280], wrong)
    ensures var s := Collect(MIXED, [], [1024, 1280], right);
            s.queue == [] && LockSound(MIXED, s.traced, MIXED.Lock0(80), Lock(s.locks, 80))
    ensures var s := Collect(MIXED, [], [1024, 1280], wrong);
            s.queue == [] && !LockSound(MIXED, s.traced, MIXED.Lock0(80), Lock(s.locks, 80))
  {
    MixedIsSuch();
    right, wrong := Decides(MIXED);
  }

  lemma MixedStores(w: World)
    requires Mixed(w)
    ensures StoresOwn(w, 80, 1536, 2048) && StoresOwn(w, 80, 1792, 3072)
    ensures FieldIsInflatedLock(2049) && FieldAlignedLockRef(2049) == 2048
    ensures Retagged(w, 2049) == 2049 && Retagged(w, 3073) == 3073
  {
    LockWordArithmetic(2049);
    LockWordArithmetic(3073);
    LockWordArithmetic(2048);
    LockWordArithmetic(3072);
    RootRefersTo(w, 1024, 2);
    RootRefersTo(w, 1280, 2);
  }

  lemma Decides(w: World) returns (right: seq<nat>, wrong: seq<nat>)
    requires Mixed(w)
    ensures !Undisturbed(w, 80) && !Overwritten(w, 80)
    ensures IsCollection(w, [], [1024, 1280], right) && IsCollection(w, [], [1024, 1280], wrong)
    ensures var s := Collect(w, [], [1024, 1280], right);
            s.queue == [] && LockSound(w, s.traced, w.Lock0(80), Lock(s.locks, 80))
    ensures var s := Collect(w, [], [1024, 1280], wrong);
            s.queue == [] && !LockSound(w, s.traced, w.Lock0(80), Lock(s.locks, 80))
  {
    right := MixedOrder(w, 1);
    wrong := MixedOrder(w, 0);
    hide IsCollection;
    MixedStores(w);
    LockWordArithmetic(2048);
    assert ClassNames(w, 80, 2048) && !ClassNames(w, 80, 3072);
    MonitorIsThere(w, right);
  }

  lemma MonitorIsThere(w: World, picks: seq<nat>)
    requires Mixed(w) && StoresOwn(w, 80, 1536, 2048)
    requires IsCollection(w, [], [1024, 1280], picks) && Collect(w, [], [1024, 1280], picks).queue == []
    ensures 2048 in Collect(w, [], [1024, 1280], picks).traced
  {
    CollectionFinishes(w, [], [1024, 1280], picks);
    SlotTargetMonitorsTraced(w, Collect(w, [], [1024, 1280], picks), 1536);
    assert 2048 in OwnMonitor(w, 1536);
  }
}
