// When the heap a collection leaves behind is one the next collection may start from.
module NextCollection {
  import opened Bits
  import opened Abi
  import opened Heap
  import opened Tracing
  import opened Invariant
  import opened ScanSteps
  import opened Collection
  import opened FullCollection

  /** The heap of images, as the next collection finds it when nothing has changed in between. */
  ghost function Next(w: World, s: State, plan: map<nat, nat>, roots: set<nat>): World
  {
    World(w.cfg, w.classes, Images(w, s.traced), plan, s.mem, s.locks, roots, s.weak)
  }

  /** What the next collection's policy, allocator and root scan promise of it. */
  ghost predicate PlanFits(n: World)
  {
    && n.roots <= n.objects && (forall r :: r in n.roots ==> !n.Moves(r))
    && (forall a {:trigger n.DestOk(a)} :: a in n.objects ==> n.DestOk(a))
    && (forall a, b {:trigger PlanSeparate(n, a, b)} :: a in n.objects && b in n.objects ==> PlanSeparate(n, a, b))
    && (forall a {:trigger NoneDangles(n, a)} :: a in n.objects ==> NoneDangles(n, a))
  }

  ghost predicate PlanSeparate(n: World, a: nat, b: nat)
  {
    && (a != b ==> Apart(n.Dest(a), n.Words(a), n.Dest(b), n.Words(b)))
    && (a != b || n.Moves(a) ==> Apart(n.Dest(a), n.Words(a), b, n.Words(b)))
  }

  ghost predicate NoneDangles(n: World, a: nat)
  {
    forall k :: k in n.Slots(a) && n.Old(a, k) !in n.objects ==> n.NoDest(n.Old(a, k))
  }

  // ---------- images ----------

  lemma SameTables(w: World, n: World, mem: Memory, a: int)
    requires n.cfg == w.cfg && n.classes == w.classes
    ensures n.ClassAt(mem, a) == w.ClassAt(mem, a) && n.SizeAt(mem, a) == w.SizeAt(mem, a)
    ensures n.SlotsOf(mem, a) == w.SlotsOf(mem, a)
  {
  }

  /** The next collection sees at the image of o what the last one was to leave there. */
  lemma ImageSeen(w: World, s: State, n: World, o: nat)
    requires w.WellFormed() && Finished(w, s) && o in s.traced && n == Next(w, s, n.plan, n.roots)
    ensures var a := w.Dest(o);
            && a in n.objects && n.Class(a) == w.Class(o) && n.Words(a) == w.Words(o) && n.Slots(a) == w.Slots(o)
            && (forall k :: 0 <= k < w.Words(o) ==> n.Old(a, k) == Forwarded(w, o, k))
  {
    FinishedObject(w, s, o);
    SameTables(w, n, s.mem, w.Dest(o));
  }

  /** An address of the starting heap is an image exactly if the object there stayed and was retained. */
  lemma StayedExactly(w: World, s: State, m: nat)
    requires w.WellFormed() && Finished(w, s) && m in w.objects
    ensures m in Images(w, s.traced) <==> !w.Moves(m) && Retained(w, m)
  {
    TracedIsReachable(w, s, m);
    if m in Images(w, s.traced) {
      var o :| o in s.traced && w.Dest(o) == m;
      CopyIsNoObject(w, o);
    }
  }

  /** The lock clause of a well-formed heap. */
  ghost predicate NamesObject(n: World, lock: nat)
  {
    FieldIsInflatedLock(lock) ==> FieldAlignedLockRef(lock) in n.objects
  }

  lemma UntouchedCarriesOver(w: World, s: State, n: World, lock: nat)
    requires w.WellFormed() && Finished(w, s) && n.objects == Images(w, s.traced) && NamesObject(w, lock)
    ensures NamesObject(n, lock) <==> LockSurvives(w, lock)
  {
    if FieldIsInflatedLock(lock) {
      StayedExactly(w, s, FieldAlignedLockRef(lock));
    }
  }

  // ---------- objects ----------

  /** Everything of a well-formed object but its lock word. */
  ghost predicate BodyOk(n: World, a: nat)
  {
    && 0 < a && n.cfg.heapStart <= a < n.cfg.heapEnd && a % 8 == 0 && n.Old(a, 0) in n.classes
    && (IsArrayId(n.cfg, n.Class(a).id) ==>
          && LengthOf(n.Old(a, 2)) >= 0 && StrideOf(n.Old(a, 2)) >= 0
          && (n.Class(a).id == n.cfg.objectArrayId ==> StrideOf(n.Old(a, 2)) == 8))
    && (forall k :: 0 <= k < n.Words(a) ==> Readable(n.mem0, a, k) && n.Old(a, k) < TWO_64)
  }

  lemma HeaderForwarded(w: World, o: nat)
    requires w.WellFormed() && o in w.objects
    ensures Forwarded(w, o, 0) == w.Old(o, 0) && Forwarded(w, o, 1) == w.Old(o, 1) && w.Words(o) >= 2
    ensures IsArrayId(w.cfg, w.Class(o).id) ==> Forwarded(w, o, 2) == w.Old(o, 2) && w.Words(o) >= 3
  {
    SizeFacts(w, o);
    forall k | k in w.Slots(o)
      ensures 2 <= k && (IsArrayId(w.cfg, w.Class(o).id) ==> 3 <= k)
    {
      SlotsInside(w, o, k);
    }
  }

  lemma ForwardedFits(w: World, o: nat, k: int)
    requires w.WellFormed() && o in w.objects && 0 <= k < w.Words(o)
    ensures Forwarded(w, o, k) < TWO_64
  {
    assert w.ObjectOk(o);
    if k in w.Slots(o) && w.Old(o, k) in w.objects {
      assert w.DestOk(w.Old(o, k));
    }
  }

  lemma ImageBodyOk(w: World, s: State, n: World, o: nat)
    requires w.WellFormed() && Finished(w, s) && o in s.traced && n == Next(w, s, n.plan, n.roots)
    ensures BodyOk(n, w.Dest(o)) && n.Old(w.Dest(o), 1) == w.Old(o, 1)
  {
    ImageSeen(w, s, n, o);
    HeaderForwarded(w, o);
    assert w.ObjectOk(o) && w.DestOk(o);
    forall k | 0 <= k < w.Words(o)
      ensures Readable(n.mem0, w.Dest(o), k) && n.Old(w.Dest(o), k) < TWO_64
    {
      assert Readable(w.mem0, w.Dest(o), k);
      ForwardedFits(w, o, k);
    }
  }

  lemma ImageOkExactly(w: World, s: State, n: World, o: nat)
    requires w.WellFormed() && Finished(w, s) && o in s.traced && n == Next(w, s, n.plan, n.roots)
    requires NoneDangles(n, w.Dest(o))
    ensures n.ObjectOk(w.Dest(o)) <==> LockSurvives(w, w.Old(o, 1))
  {
    ImageBodyOk(w, s, n, o);
    assert w.ObjectOk(o);
    UntouchedCarriesOver(w, s, n, w.Old(o, 1));
  }

  // ---------- classes ----------

  lemma ClassLockCarriesOver(w: World, s: State, n: World, r: nat)
    requires w.WellFormed() && Finished(w, s) && r in w.classes && n == Next(w, s, n.plan, n.roots)
    ensures Lock(s.locks, r) < TWO_64
    ensures NamesObject(n, Lock(s.locks, r)) <==> ClassScanned(w, r) || LockSurvives(w, w.Lock0(r))
  {
    assert w.ClassOk(r) && LockOk(w, s.traced, r, Lock(s.locks, r));
    if ClassScanned(w, r) {
      var u :| IsSlotTarget(w, u) && w.Old(u, 0) == r;
      SlotTargetDone(w, s, u);
    }
    if m :| LockTracedAs(w, s.traced, r, Lock(s.locks, r), m) {
      TagOfDest(w, m);
      assert w.DestOk(m) && w.Dest(m) in n.objects;
    }
    if !ClassScanned(w, r) {
      UntouchedCarriesOver(w, s, n, w.Lock0(r));
    }
  }

  lemma NextClassExactly(w: World, s: State, n: World, r: nat)
    requires w.WellFormed() && Finished(w, s) && r in w.classes && n == Next(w, s, n.plan, n.roots)
    ensures n.ClassOk(r) <==> ClassScanned(w, r) || LockSurvives(w, w.Lock0(r))
  {
    ClassLockCarriesOver(w, s, n, r);
    assert w.ClassOk(r);
    assert n.Lock0(r) == Lock(s.locks, r);
  }

  // ---------- the whole heap ----------

  lemma ImagesSeparate(w: World, s: State, n: World, a: nat, b: nat)
    requires w.WellFormed() && Finished(w, s) && n == Next(w, s, n.plan, n.roots)
    requires a in n.objects && b in n.objects && PlanSeparate(n, a, b)
    ensures n.Separate(a, b)
  {
    var o :| o in s.traced && w.Dest(o) == a;
    var p :| p in s.traced && w.Dest(p) == b;
    ImageSeen(w, s, n, o);
    ImageSeen(w, s, n, p);
    assert w.Separate(o, p);
  }

  /** Every lock word the next collection will look at names an object that is still there. */
  ghost predicate LocksCarryOver(w: World)
  {
    && (forall v :: Reach(w, v) ==> LockSurvives(w, w.Old(v, 1)))
    && (forall r :: r in w.classes ==> ClassScanned(w, r) || LockSurvives(w, w.Lock0(r)))
  }

  lemma ObjectsCarryOver(w: World, s: State, n: World)
    requires w.WellFormed() && Finished(w, s) && n == Next(w, s, n.plan, n.roots) && PlanFits(n)
    ensures (forall a :: a in n.objects ==> n.ObjectOk(a)) <==>
            (forall v :: Reach(w, v) ==> LockSurvives(w, w.Old(v, 1)))
  {
    forall v: nat
      ensures Reach(w, v) ==> w.Dest(v) in n.objects && (n.ObjectOk(w.Dest(v)) <==> LockSurvives(w, w.Old(v, 1)))
    {
      TracedIsReachable(w, s, v);
      if Reach(w, v) {
        assert w.Dest(v) in n.objects && NoneDangles(n, w.Dest(v));
        ImageOkExactly(w, s, n, v);
      }
    }
    if forall v :: Reach(w, v) ==> LockSurvives(w, w.Old(v, 1)) {
      forall a | a in n.objects
        ensures n.ObjectOk(a)
      {
        var o :| o in s.traced && w.Dest(o) == a;
        TracedIsReachable(w, s, o);
      }
    }
  }

  /**
   * A finished collection leaves a heap the next one may start from, for whatever plan fits
   * it, exactly when every own lock word of a reachable object survives untouched and so does every
   * class lock word that no scan has come across. Both are told from the starting heap.
   */
  lemma NextIsWellFormedExactly(w: World, s: State, n: World)
    requires w.WellFormed() && Finished(w, s) && n == Next(w, s, n.plan, n.roots) && PlanFits(n)
    ensures n.WellFormed() <==> LocksCarryOver(w)
  {
    ObjectsCarryOver(w, s, n);
    forall r | r in w.classes
      ensures n.ClassOk(r) <==> ClassScanned(w, r) || LockSurvives(w, w.Lock0(r))
    {
      NextClassExactly(w, s, n, r);
    }
    forall a, b | a in n.objects && b in n.objects
      ensures n.Separate(a, b)
    {
      assert PlanSeparate(n, a, b);
      ImagesSeparate(w, s, n, a, b);
    }
    WellFormedParts(n);
  }

  /** Then it can run to its end, and on the weak stack everything of the last one is still at the bottom. */
  lemma NextCollectionRuns(w: World, s: State, n: World, roots: seq<nat>) returns (picks: seq<nat>)
    requires w.WellFormed() && Finished(w, s) && n == Next(w, s, n.plan, n.roots) && PlanFits(n)
    requires LocksCarryOver(w) && RootsAre(n, roots)
    ensures var weak := WeakAfterScan(n, roots);
            && IsCollection(n, weak, roots, picks) && Collect(n, weak, roots, picks).queue == []
            && s.weak <= Collect(n, weak, roots, picks).weak
  {
    NextIsWellFormedExactly(w, s, n);
    ScanRecordsWeak(n, roots);
    picks := CollectionExists(n, WeakAfterScan(n, roots), roots);
    WeakReferencesDiscovered(n, WeakAfterScan(n, roots), roots, picks);
  }

  lemma WellFormedParts(n: World)
    requires 3 <= n.cfg.alignLog && PlanFits(n)
    requires forall a, b {:trigger n.Separate(a, b)} :: a in n.objects && b in n.objects ==> n.Separate(a, b)
    ensures n.WellFormed() <==>
            (forall a :: a in n.objects ==> n.ObjectOk(a)) && (forall r :: r in n.classes ==> n.ClassOk(r))
  {
  }
}
