// Two collections in a row: what the first leaves on the weak stack is still there after the second.
module LeftoverExample {
  import opened Abi
  import opened Heap
  import opened Invariant
  import opened Collection
  import opened RootScanning
  import opened RootProperties
  import opened Examples

  const CLASSES: map<nat, Rtti> := map[64 := NODE, 96 := WEAK]
  const THIN: map<nat, nat> := map[64 := 0, 96 := 0]

  /** The root at 1024 refers to a weak reference at 1536, and nothing is on the stack yet. */
  const EARLIER := World(
    CONFIG, CLASSES, {1024, 1536}, map[], MemoryOf(EARLIER_WORDS), THIN, {1024}, [])

  const EARLIER_WORDS: map<int, nat> := map[1024 := 64, 1040 := 1536, 1536 := 96]

  /** The same heap later on: the root refers to itself now, and the stack is as the last collection left it. */
  function Later(leftover: seq<nat>): World
  {
    World(CONFIG, CLASSES, {1024, 1536}, map[], MemoryOf(LATER_WORDS), THIN, {1024}, leftover)
  }

  const LATER_WORDS: map<int, nat> := map[1024 := 64, 1040 := 1024, 1536 := 96]

  /** Either heap, its one slot holding `target`. */
  ghost predicate Either(w: World, target: nat)
  {
    || (w == EARLIER && target == 1536)
    || (w == Later(w.leftover) && target == 1024)
  }

  lemma EitherObjects(w: World, target: nat, o: nat)
    requires Either(w, target) && o in w.objects
    ensures w.Class(o) == if o == 1024 then NODE else WEAK
    ensures w.Slots(o) == if o == 1024 then [2] else []
    ensures w.Old(o, 0) == (if o == 1024 then 64 else 96) && w.Old(o, 1) == 0
    ensures o == 1024 ==> w.Old(o, 2) == target
    ensures w.IsWeak(o) <==> o == 1536
  {
    if o == 1024 {
      assert w.Class(o) == NODE;
    } else {
      assert w.Class(o) == WEAK;
    }
    SmallObject(w, o);
  }

  lemma EitherSmall(w: World, target: nat, o: nat)
    requires Either(w, target) && o in w.objects
    ensures ObjectSmall(w, o)
  {
    hide World.Slots;
    hide World.Class;
    EitherObjects(w, target, o);
  }

  lemma EitherTables(w: World, target: nat)
    requires Either(w, target)
    ensures SmallTables(w, if target == 1536 then EARLIER_WORDS else LATER_WORDS)
  {
  }

  lemma EitherClasses(w: World, target: nat, r: nat)
    requires Either(w, target) && r in w.classes
    ensures ClassSmall(w, r)
  {
  }

  lemma EitherIsWellFormed(w: World, target: nat)
    requires Either(w, target)
    ensures w.WellFormed()
  {
    hide SmallTables;
    hide ClassSmall;
    hide ObjectSmall;
    hide World.WellFormed;
    forall r | r in w.classes
      ensures ClassSmall(w, r)
    {
      EitherClasses(w, target, r);
    }
    forall o | o in w.objects
      ensures ObjectSmall(w, o)
    {
      EitherSmall(w, target, o);
    }
    EitherTables(w, target);
    StillHeapIsWellFormed(w, if target == 1536 then EARLIER_WORDS else LATER_WORDS);
  }

  /** A root scan reports exactly the root of either heap, when a module refers to it. */
  lemma EitherIsReported(w: World, target: nat)
    requires Either(w, target)
    ensures w.WellFormed()
    ensures exists rank :: Ranked(w, rank) && RootsCovered(w, rank, [], [1024]) &&
                           VmRoots(w, rank, [], [1024]) == [1024] && w.roots == {1024}
  {
    hide World.WellFormed;
    hide VmRoots;
    hide RootsCovered;
    EitherIsWellFormed(w, target);
    var rank := map[1024 := 0];
    EitherObjects(w, target, 1024);
    LockWordArithmetic(0);
    assert Monitors(w, 1024) == [];
    assert AboveMonitors(w, rank, 1024);
    assert Ranked(w, rank);
    OneModule(w, rank, 1024);
  }

  lemma EitherKeeps(w: World, target: nat)
    requires Either(w, target)
    ensures Keeps(w, target) == {target}
  {
    EitherObjects(w, target, target);
    LockWordArithmetic(0);
  }

  /** The one slot target is what the root refers to. */
  lemma EitherTarget(w: World, target: nat, u: nat)
    requires Either(w, target)
    ensures IsSlotTarget(w, u) <==> u == target
  {
    hide World.WellFormed;
    hide World.Slots;
    EitherIsWellFormed(w, target);
    forall p | p in w.objects
      ensures w.Slots(p) == if p == 1024 then [2] else []
    {
      EitherObjects(w, target, p);
    }
    EitherObjects(w, target, 1024);
    OnlyTarget(w, target, u);
  }

  /** In a heap with one slot, in its root. */
  lemma OnlyTarget(w: World, target: nat, u: nat)
    requires w.WellFormed() && 1024 in w.roots && w.Slots(1024) == [2]
    requires w.Old(1024, 2) == target && target in w.objects
    requires forall p :: p in w.objects && p != 1024 ==> w.Slots(p) == []
    ensures IsSlotTarget(w, u) <==> u == target
  {
    RootRefersTo(w, 1024, 2);
    if IsSlotTarget(w, u) {
      var p, k :| SlotRefersTo(w, p, k, u);
      ReachIsObject(w, p);
    }
  }

  lemma EitherDiscovers(w: World, target: nat, a: nat)
    requires Either(w, target)
    ensures Discovered(w, a) <==> a == 1536 && target == 1536
  {
    hide IsSlotTarget;
    hide World.Class;
    hide World.Slots;
    hide World.IsWeak;
    EitherTarget(w, target, a);
    EitherObjects(w, target, 1024);
    EitherObjects(w, target, 1536);
    if a == 1536 && target == 1536 {
      assert DiscoveredAs(w, a, 1536);
    }
    if v :| DiscoveredAs(w, a, v) {
      EitherTarget(w, target, v);
      EitherObjects(w, target, v);
    }
  }

  lemma EitherRetains(w: World, target: nat, x: nat)
    requires Either(w, target)
    ensures Retained(w, x) <==> x == 1024 || x == target
  {
    EitherTarget(w, target, target);
    EitherKeeps(w, target);
    if x !in w.roots && Retained(w, x) {
      var u :| IsSlotTarget(w, u) && x in Keeps(w, u);
      EitherTarget(w, target, u);
    }
  }

  /**
   * However both collections run: the first leaves exactly the weak reference at 1536 on the stack,
   * and after the second it is still there, although the second has not traced it.
   */
  lemma StaleEntryStays(weak: seq<nat>, roots: seq<nat>, picks: seq<nat>,
                        weak': seq<nat>, roots': seq<nat>, picks': seq<nat>)
    requires IsCollection(EARLIER, weak, roots, picks) && Collect(EARLIER, weak, roots, picks).queue == []
    requires var later := Later(Collect(EARLIER, weak, roots, picks).weak);
             IsCollection(later, weak', roots', picks') && Collect(later, weak', roots', picks').queue == []
    ensures var left := Collect(EARLIER, weak, roots, picks).weak;
            var later := Later(left);
            var s := Collect(later, weak', roots', picks');
            && EARLIER.WellFormed() && (forall a :: a in left <==> a == 1536)
            && 1536 in s.weak && !Discovered(later, 1536) && 1536 !in s.traced
  {
    var left := Collect(EARLIER, weak, roots, picks).weak;
    var later := Later(left);
    WeakReferencesDiscovered(EARLIER, weak, roots, picks);
    forall a
      ensures a in left <==> a == 1536
    {
      EitherDiscovers(EARLIER, 1536, a);
    }
    WeakReferencesDiscovered(later, weak', roots', picks');
    EitherDiscovers(later, 1024, 1536);
    EitherRetains(later, 1024, 1536);
    CollectionFinishes(later, weak', roots', picks');
    TracedIsReachable(later, Collect(later, weak', roots', picks'), 1536);
  }
}
