// `scan_object` visits the edges first and leaves loading, tracing and storing to the
// caller; `scan_object_and_trace_edges` does both at once. When they agree, and why the
// first is not safe once targets have moved.
module TwoPhase {
  import opened Abi
  import opened Heap
  import opened ObjectModel
  import opened Tracing
  import opened Invariant
  import opened ScanSteps
  import opened Evacuation

  // ---------- the two phases ----------

  /** The guard of both forms: the word is in the heap range and the address of a valid object. */
  predicate ValidSlot(w: World, s: State, a: nat, k: int)
  {
    IsWordInHeap(w.cfg, Word(s.mem, a, k)) && IsMmtkObject(w, s, Word(s.mem, a, k))
  }

  /** The slots `scan_object` hands to the visitor, in order. */
  function Visited(w: World, s: State, a: nat, slots: seq<int>): seq<int>
  {
    if slots == [] then []
    else
      var before, k := slots[..|slots| - 1], slots[|slots| - 1];
      Visited(w, s, a, before) + (if ValidSlot(w, s, a, k) then [k] else [])
  }

  /** The weak references it pushes while visiting, at their addresses of that moment. */
  function WeakSeen(w: World, s: State, a: nat, slots: seq<int>): seq<nat>
  {
    if slots == [] then []
    else
      var before, k := slots[..|slots| - 1], slots[|slots| - 1];
      WeakSeen(w, s, a, before) + WeakPushed(w, s, a, k)
  }

  /** A header that is no class pointer is not taken for that of a weak reference. */
  function WeakPushed(w: World, s: State, a: nat, k: int): seq<nat>
  {
    var field := Word(s.mem, a, k);
    var header := Word(s.mem, field, 0);
    if ValidSlot(w, s, a, k) && header in w.classes && IsWeakRefId(w.cfg, w.classes[header].id)
    then [field] else []
  }

  /** What mmtk-core does with a visited edge: load, trace, store. */
  function ProcessEdge(w: World, s: State, a: nat, k: int): State
  {
    var field := Word(s.mem, a, k);
    var s' := Trace(w, s, field);
    s'.(mem := Store(s'.mem, a, k, Forward(w, field)))
  }

  function ProcessEdges(w: World, s: State, a: nat, slots: seq<int>): State
  {
    if slots == [] then s
    else ProcessEdge(w, ProcessEdges(w, s, a, slots[..|slots| - 1]), a, slots[|slots| - 1])
  }

  function ScanThenProcess(w: World, s: State, a: nat): State
  {
    var slots := w.SlotsOf(s.mem, a);
    ProcessEdges(w, s.(weak := s.weak + WeakSeen(w, s, a, slots)), a, Visited(w, s, a, slots))
  }

  function ForwardAll(w: World, refs: seq<nat>): (r: seq<nat>)
    ensures |r| == |refs|
  {
    seq(|refs|, i requires 0 <= i < |refs| => Forward(w, refs[i]))
  }

  // ---------- when they agree ----------

  /** Neither of v's lock words is inflated now. */
  ghost predicate Unlocked(w: World, s: State, v: nat)
  {
    !FieldIsInflatedLock(w.Old(v, 1)) && !FieldIsInflatedLock(Lock(s.locks, w.Old(v, 0)))
  }

  /** No slot of o leads to an object with an inflated lock word. */
  ghost predicate TargetsUnlocked(w: World, s: State, o: nat)
  {
    forall k :: k in w.Slots(o) && w.Old(o, k) in w.objects ==> Unlocked(w, s, w.Old(o, k))
  }

  /** The forwarding bits in the header the slot leads to are clear: what it refers to has not moved away. */
  predicate CleanSlot(w: World, s: State, a: nat, k: int)
  {
    ValidSlot(w, s, a, k) ==> Word(s.mem, Word(s.mem, a, k), 0) % 4 == 0
  }

  ghost predicate CleanSlots(w: World, s: State, a: nat, slots: seq<int>)
  {
    forall k :: k in slots ==> CleanSlot(w, s, a, k)
  }

  lemma NoLocksNoScan(w: World, s: State, v: nat)
    requires w.WellFormed() && Inv(w, s) && v in s.traced && Unlocked(w, s, v)
    ensures ScanLocks(w, s, w.Dest(v)) == s
  {
    HeaderOfImage(w, s, v);
  }

  lemma TargetHeader(w: World, s: State, o: nat, k: int)
    requires w.WellFormed() && Inv(w, s) && o in s.traced && k in w.Slots(o)
    requires IsMmtkObject(w, s, Word(s.mem, w.Dest(o), k))
    ensures var field, v := Word(s.mem, w.Dest(o), k), w.Old(o, k);
            && v in w.objects && (field == v || field == w.Dest(v))
            && (Word(s.mem, field, 0) == w.Old(v, 0) || Word(s.mem, field, 0) == w.Dest(v) + FORWARDED)
  {
    var field, v := Word(s.mem, w.Dest(o), k), w.Old(o, k);
    SlotContent(w, s, o, k);
    if v in s.traced {
      HeaderOfImage(w, s, v);
      if field == v && w.Moves(v) {
        assert Condemned(w, s.mem, v);
      }
    } else {
      SizeFacts(w, v);
      assert Intact(w, s.mem, v);
    }
  }

  /** The header of a slot's target is a class pointer exactly when its forwarding bits are clear. */
  lemma CleanHeaderIsClass(w: World, s: State, o: nat, k: int)
    requires w.WellFormed() && Inv(w, s) && o in s.traced && k in w.Slots(o)
    requires IsMmtkObject(w, s, Word(s.mem, w.Dest(o), k))
    ensures var header := Word(s.mem, Word(s.mem, w.Dest(o), k), 0);
            && (header in w.classes <==> header % 4 == 0)
            && (header % 4 == 0 ==> header == w.Old(w.Old(o, k), 0))
            && (header % 4 != 0 ==> header == w.Dest(w.Old(o, k)) + FORWARDED)
  {
    var v, header := w.Old(o, k), Word(s.mem, Word(s.mem, w.Dest(o), k), 0);
    TargetHeader(w, s, o, k);
    assert w.ObjectOk(v) && w.DestOk(v);
    ClassPointerIsAligned(w, w.Old(v, 0));
    ForwardingBits(w.Old(v, 0));
    ForwardingBits(w.Dest(v));
    if header in w.classes {
      ClassPointerIsAligned(w, header);
    }
  }

  lemma ForwardingBits(x: nat)
    requires x % 8 == 0
    ensures x % 4 == 0 && (x + FORWARDED) % 4 == 3 && (x + FORWARDED) % 8 == 3
  {
  }

  lemma ClassPointerIsAligned(w: World, r: nat)
    requires w.WellFormed() && r in w.classes
    ensures r % 8 == 0
  {
    assert w.ClassOk(r);
    AlignmentIsWordMultiple(w.cfg);
    MultipleOfMultiple(r, Alignment(w.cfg), 8);
  }

  lemma TraceIgnoresWeak(w: World, s: State, weak: seq<nat>, a: nat)
    ensures Trace(w, s.(weak := weak), a) == Trace(w, s, a).(weak := weak)
  {
  }

  lemma {:induction false} PhasesAgree(w: World, s: State, o: nat, slots: seq<int>, weak: seq<nat>)
    requires w.WellFormed() && Inv(w, s) && o in s.traced && TargetsUnlocked(w, s, o)
    requires forall k :: k in slots ==> k in w.Slots(o)
    ensures var a := w.Dest(o);
            var direct := ScanSlots(w, s, a, slots);
            && Inv(w, direct) && o in direct.traced && direct.locks == s.locks
            && ProcessEdges(w, s.(weak := weak), a, Visited(w, s, a, slots)) == direct.(weak := weak)
  {
    hide World.WellFormed;
    hide Inv;
    hide ScanSlot;
    hide ProcessEdge;
    var a := w.Dest(o);
    if slots != [] {
      var before, k := slots[..|slots| - 1], slots[|slots| - 1];
      PhasesAgree(w, s, o, before, weak);
      ScanSlotsKeepsInv(w, s, o, slots);
      var d := ScanSlots(w, s, a, before);
      SlotContent(w, s, o, k);
      SlotContent(w, d, o, k);
      if w.Old(o, k) in w.objects {
        assert Visited(w, s, a, slots) == Visited(w, s, a, before) + [k];
        DirectStep(w, d, o, k);
        ProcessSnoc(w, s.(weak := weak), a, Visited(w, s, a, before), k);
        ProcessIgnoresWeak(w, d, a, k, weak);
      } else {
        assert Visited(w, s, a, slots) == Visited(w, s, a, before);
        ScanSlotSkips(w, d, a, k);
      }
    }
  }

  lemma ProcessSnoc(w: World, s: State, a: nat, before: seq<int>, k: int)
    ensures ProcessEdges(w, s, a, before + [k]) == ProcessEdge(w, ProcessEdges(w, s, a, before), a, k)
  {
    assert (before + [k])[..|before|] == before;
  }

  lemma ProcessIgnoresWeak(w: World, s: State, a: nat, k: int, weak: seq<nat>)
    ensures ProcessEdge(w, s.(weak := weak), a, k) == ProcessEdge(w, s, a, k).(weak := weak)
  {
    TraceIgnoresWeak(w, s, weak, Word(s.mem, a, k));
  }

  /** With the target's locks thin, the direct step on a valid slot is load, trace, store, and the push. */
  lemma DirectStep(w: World, s: State, o: nat, k: int)
    requires w.WellFormed() && Inv(w, s) && o in s.traced && k in w.Slots(o)
    requires w.Old(o, k) in w.objects && Unlocked(w, s, w.Old(o, k))
    ensures var v := w.Old(o, k);
            ScanSlot(w, s, w.Dest(o), k) ==
            ProcessEdge(w, s, w.Dest(o), k).(weak := s.weak + if w.IsWeak(v) then [w.Dest(v)] else [])
    ensures ScanSlot(w, s, w.Dest(o), k).locks == s.locks
  {
    hide World.WellFormed;
    hide Inv;
    hide Quiet;
    hide ScanLocks;
    var v, field := w.Old(o, k), Word(s.mem, w.Dest(o), k);
    SlotContent(w, s, o, k);
    ScanSlotStages(w, s, o, k);
    var s1 := Trace(w, s, field);
    NoLocksNoScan(w, s1, v);
    HeaderOfImage(w, s1, v);
    assert s1.weak == s.weak && s1.locks == s.locks;
  }

  /** What the direct form pushes: the forwarded addresses of the weak references among the targets. */
  ghost function WeakTargets(w: World, o: nat, slots: seq<int>): seq<nat>
  {
    if slots == [] then []
    else WeakTargets(w, o, slots[..|slots| - 1]) + WeakTarget(w, o, slots[|slots| - 1])
  }

  ghost function WeakTarget(w: World, o: nat, k: int): seq<nat>
  {
    var v := w.Old(o, k);
    if v in w.objects && w.IsWeak(v) then [w.Dest(v)] else []
  }

  lemma {:induction false} DirectWeak(w: World, s: State, o: nat, slots: seq<int>)
    requires w.WellFormed() && Inv(w, s) && o in s.traced && TargetsUnlocked(w, s, o)
    requires forall k :: k in slots ==> k in w.Slots(o)
    ensures ScanSlots(w, s, w.Dest(o), slots).weak == s.weak + WeakTargets(w, o, slots)
    ensures ScanSlots(w, s, w.Dest(o), slots).locks == s.locks
  {
    hide World.WellFormed;
    hide Inv;
    hide ScanSlot;
    if slots != [] {
      var before, k := slots[..|slots| - 1], slots[|slots| - 1];
      DirectWeak(w, s, o, before);
      PrefixKeepsInv(w, s, o, before);
      DirectWeakStep(w, ScanSlots(w, s, w.Dest(o), before), o, k);
      assert s.weak + WeakTargets(w, o, before) + WeakTarget(w, o, k) ==
             s.weak + (WeakTargets(w, o, before) + WeakTarget(w, o, k));
    }
  }

  lemma PrefixKeepsInv(w: World, s: State, o: nat, slots: seq<int>)
    requires w.WellFormed() && Inv(w, s) && o in s.traced
    requires forall k :: k in slots ==> k in w.Slots(o)
    ensures Inv(w, ScanSlots(w, s, w.Dest(o), slots)) && o in ScanSlots(w, s, w.Dest(o), slots).traced
  {
    ScanSlotsKeepsInv(w, s, o, slots);
  }

  lemma ForwardAllSplits(w: World, a: seq<nat>, b: seq<nat>)
    ensures ForwardAll(w, a + b) == ForwardAll(w, a) + ForwardAll(w, b)
  {
  }

  lemma DirectWeakStep(w: World, s: State, o: nat, k: int)
    requires w.WellFormed() && Inv(w, s) && o in s.traced && k in w.Slots(o)
    requires w.Old(o, k) in w.objects ==> Unlocked(w, s, w.Old(o, k))
    ensures ScanSlot(w, s, w.Dest(o), k).weak == s.weak + WeakTarget(w, o, k)
    ensures ScanSlot(w, s, w.Dest(o), k).locks == s.locks
  {
    SlotContent(w, s, o, k);
    if w.Old(o, k) in w.objects {
      DirectStep(w, s, o, k);
    } else {
      ScanSlotSkips(w, s, w.Dest(o), k);
    }
  }

  /** The slot does not lead to a weak reference, or the reference has not moved away. */
  ghost predicate WeakSlotClean(w: World, s: State, o: nat, k: int)
  {
    w.Old(o, k) in w.objects && w.IsWeak(w.Old(o, k)) ==> CleanSlot(w, s, w.Dest(o), k)
  }

  /** At one slot, the first phase pushes what the direct form does, unforwarded, or misses it. */
  lemma PushesAgree(w: World, s: State, o: nat, k: int)
    requires w.WellFormed() && Inv(w, s) && o in s.traced && k in w.Slots(o)
    ensures var pushed, target := WeakPushed(w, s, w.Dest(o), k), WeakTarget(w, o, k);
            && |pushed| <= |target| <= 1 && (|pushed| == |target| <==> WeakSlotClean(w, s, o, k))
            && (WeakSlotClean(w, s, o, k) ==> ForwardAll(w, pushed) == target)
  {
    SlotContent(w, s, o, k);
    if w.Old(o, k) in w.objects {
      CleanHeaderIsClass(w, s, o, k);
    }
  }

  lemma {:induction false} SeenAgrees(w: World, s: State, o: nat, slots: seq<int>)
    requires w.WellFormed() && Inv(w, s) && o in s.traced && forall k :: k in slots ==> k in w.Slots(o)
    ensures var seen, targets := WeakSeen(w, s, w.Dest(o), slots), WeakTargets(w, o, slots);
            && |seen| <= |targets|
            && (|seen| == |targets| ==> forall k :: k in slots ==> WeakSlotClean(w, s, o, k))
            && ((forall k :: k in slots ==> WeakSlotClean(w, s, o, k)) ==> ForwardAll(w, seen) == targets)
  {
    if slots != [] {
      var before, k := slots[..|slots| - 1], slots[|slots| - 1];
      assert slots == before + [k];
      SeenAgrees(w, s, o, before);
      PushesAgree(w, s, o, k);
      ForwardAllSplits(w, WeakSeen(w, s, w.Dest(o), before), WeakPushed(w, s, w.Dest(o), k));
    }
  }

  /**
   * The direct form refines the two-phase form. With no target's lock inflated they give the same
   * memory, the same traced objects in the same queue order and the same class lock
   * words; and the weak stacks differ only by forwarding the entries the first phase
   * pushed exactly when no slot leads to a weak reference that has moved away.
   */
  lemma DirectRefinesTwoPhase(w: World, s: State, o: nat)
    requires w.WellFormed() && Inv(w, s) && o in s.traced && TargetsUnlocked(w, s, o)
    ensures var a := w.Dest(o);
            var direct, twoPhase := ScanNode(w, s, a), ScanThenProcess(w, s, a);
            && direct.mem == twoPhase.mem && direct.traced == twoPhase.traced
            && direct.queue == twoPhase.queue && direct.locks == twoPhase.locks
            && s.weak <= twoPhase.weak
            && (direct.weak == s.weak + ForwardAll(w, twoPhase.weak[|s.weak|..]) <==>
                forall k :: k in w.Slots(o) ==> WeakSlotClean(w, s, o, k))
  {
    var a := w.Dest(o);
    HeaderOfImage(w, s, o);
    var slots := w.Slots(o);
    var seen := WeakSeen(w, s, a, slots);
    PhasesAgree(w, s, o, slots, s.weak + seen);
    DirectWeak(w, s, o, slots);
    SeenAgrees(w, s, o, slots);
    assert (s.weak + seen)[|s.weak|..] == seen;
    SameTail(s.weak, WeakTargets(w, o, slots), ForwardAll(w, seen));
  }

  lemma SameTail(front: seq<nat>, a: seq<nat>, b: seq<nat>)
    ensures front + a == front + b <==> a == b
  {
    assert (front + a)[|front|..] == a && (front + b)[|front|..] == b;
  }

  /**
   * Once a node has been scanned, every other node that still refers to an object it moved
   * leads the first phase to a header that is no class pointer.
   */
  lemma SharedTargetGetsDirty(w: World, s: State, o: nat, j: int, p: nat, k: int)
    requires w.WellFormed() && Inv(w, s) && o in s.traced && p in s.traced && o != p
    requires j in w.Slots(o) && k in w.Slots(p) && w.Old(o, j) == w.Old(p, k) == Word(s.mem, w.Dest(p), k)
    requires w.Old(p, k) in w.objects && w.Moves(w.Old(p, k))
    ensures var s' := ScanNode(w, s, w.Dest(o));
            Inv(w, s') && p in s'.traced && s.queue <= s'.queue && !CleanSlot(w, s', w.Dest(p), k)
  {
    var s', v := ScanNode(w, s, w.Dest(o)), w.Old(p, k);
    ScanNodeBlackens(w, s, o);
    assert Done(w, s', o, j);
    SlotsInside(w, p, k);
    ScanNodeElsewhere(w, s, o, p, k);
    assert Condemned(w, s'.mem, v);
    SlotContent(w, s', p, k);
    assert w.DestOk(v);
    ForwardingBits(w.Dest(v));
  }

  // ---------- what the visiting code may read ----------

  function EdgeAddresses(a: int, slots: seq<int>): (edges: seq<int>)
    ensures |edges| == |slots|
  {
    seq(|slots|, i requires 0 <= i < |slots| => a + 8 * slots[i])
  }

  /** With clear forwarding bits, a slot's target has a readable header, lock word and class. */
  lemma CleanTargetReadable(w: World, s: State, o: nat, k: int)
    requires w.WellFormed() && Inv(w, s) && o in s.traced && k in w.Slots(o)
    requires var field := Word(s.mem, w.Dest(o), k);
             IsMmtkObject(w, s, field) && Word(s.mem, field, 0) % 4 == 0
    ensures var field := Word(s.mem, w.Dest(o), k);
            && field in s.mem && field + 8 in s.mem && 0 < field
            && s.mem[field] in w.classes && s.mem[field] in s.locks
            && s.mem[field] == Word(s.mem, field, 0)
  {
    var field, v := Word(s.mem, w.Dest(o), k), w.Old(o, k);
    TargetHeader(w, s, o, k);
    CleanHeaderIsClass(w, s, o, k);
    SizeFacts(w, v);
    assert w.ObjectOk(v) && w.DestOk(v) && w.ClassOk(w.Old(v, 0));
    assert Readable(w.mem0, v, 0) && Readable(w.mem0, v, 1);
    assert Readable(w.mem0, w.Dest(v), 0) && Readable(w.mem0, w.Dest(v), 1);
  }

  /** What the visiting loops have produced so far: the visitor's edges and the weak stack. */
  datatype Visit = Visit(edges: seq<int>, weak: seq<nat>)

  function VisitOne(w: World, s: State, a: nat, k: int, v: Visit): Visit
  {
    if ValidSlot(w, s, a, k) then Visit(v.edges + [a + 8 * k], v.weak + WeakPushed(w, s, a, k)) else v
  }

  function VisitAll(w: World, s: State, a: nat, slots: seq<int>, weak: seq<nat>): Visit
  {
    if slots == [] then Visit([], weak)
    else VisitOne(w, s, a, slots[|slots| - 1], VisitAll(w, s, a, slots[..|slots| - 1], weak))
  }

  lemma NothingVisited(w: World, s: State, a: nat, c: Rtti, weak: seq<nat>)
    ensures VisitAll(w, s, a, FieldSlots(w.cfg, c, 0), weak) == Visit([], weak)
    ensures CleanSlots(w, s, a, FieldSlots(w.cfg, c, 0))
  {
  }

  /** The loops produce the visited slots' addresses, in order, and the first phase's pushes. */
  lemma {:induction false} VisitAllIsTwoPhase(w: World, s: State, a: nat, slots: seq<int>, weak: seq<nat>)
    ensures VisitAll(w, s, a, slots, weak).edges == EdgeAddresses(a, Visited(w, s, a, slots))
    ensures VisitAll(w, s, a, slots, weak).weak == weak + WeakSeen(w, s, a, slots)
  {
    if slots != [] {
      VisitAllIsTwoPhase(w, s, a, slots[..|slots| - 1], weak);
      assert weak + (WeakSeen(w, s, a, slots[..|slots| - 1]) + WeakPushed(w, s, a, slots[|slots| - 1])) ==
             weak + WeakSeen(w, s, a, slots[..|slots| - 1]) + WeakPushed(w, s, a, slots[|slots| - 1]);
    }
  }

  lemma VisitSnoc(w: World, s: State, a: nat, before: seq<int>, k: int, weak: seq<nat>)
    ensures VisitAll(w, s, a, before + [k], weak) == VisitOne(w, s, a, k, VisitAll(w, s, a, before, weak))
  {
    assert (before + [k])[..|before|] == before;
  }

  /** A visiting loop reads mapped slots, and the headers of what they lead to. */
  lemma VisitReads(w: World, s: State, o: nat, k: int)
    requires w.WellFormed() && Inv(w, s) && o in s.traced && k in w.Slots(o)
    ensures w.Dest(o) + 8 * k in s.mem && s.mem[w.Dest(o) + 8 * k] == Word(s.mem, w.Dest(o), k)
    ensures var field := Word(s.mem, w.Dest(o), k);
            ValidSlot(w, s, w.Dest(o), k) ==>
              && field in s.mem && 0 < field
              && (s.mem[field] in w.classes <==> CleanSlot(w, s, w.Dest(o), k))
  {
    SlotReadable(w, s, o, k);
    if ValidSlot(w, s, w.Dest(o), k) {
      HeaderMapped(w, s, o, k);
      CleanHeaderIsClass(w, s, o, k);
    }
  }

  lemma HeaderMapped(w: World, s: State, o: nat, k: int)
    requires w.WellFormed() && Inv(w, s) && o in s.traced && k in w.Slots(o) && ValidSlot(w, s, w.Dest(o), k)
    ensures var field := Word(s.mem, w.Dest(o), k); field in s.mem && 0 < field
  {
    var v := w.Old(o, k);
    TargetHeader(w, s, o, k);
    SizeFacts(w, v);
    assert w.ObjectOk(v) && w.DestOk(v);
    assert Readable(w.mem0, v, 0) && Readable(w.mem0, w.Dest(v), 0);
  }
}
