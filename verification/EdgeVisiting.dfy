// `scan_object` itself: the visiting half of object scanning, which changes nothing but
// the weak stack and the visitor's list of edges.
module EdgeVisiting {
  import opened Abi
  import opened Heap
  import opened Tracing
  import opened Invariant
  import opened ScanSteps
  import opened Evacuation
  import opened TwoPhase

  class EdgeVisitor {
    const w: World
    const heap: State
    var weakRefStack: seq<nat>
    var edges: seq<int>

    constructor (w: World, heap: State)
      ensures this.w == w && this.heap == heap && weakRefStack == heap.weak && edges == []
    {
      this.w, this.heap := w, heap;
      weakRefStack, edges := heap.weak, [];
    }

    /** mmtk_scan_lock_words: looks at both lock words and does nothing with them. */
    method ScanLockWords(a: nat)
      requires 0 < a ==> a in heap.mem && a + 8 in heap.mem && heap.mem[a] in heap.locks
    {
      if a != 0 {
        var rttiLock := heap.locks[heap.mem[a]];
        if FieldIsInflatedLock(rttiLock) {
          var node := FieldAlignedLockRef(rttiLock);
        }
        var objectLock := heap.mem[a + 8];
        if FieldIsInflatedLock(objectLock) {
          var node := FieldAlignedLockRef(objectLock);
        }
      }
    }

    function V(): Visit
      reads this
    {
      Visit(edges, weakRefStack)
    }

    /**
     * mmtk_scan_field. It dereferences the header of the target as a class pointer, which
     * it is exactly while the target has not moved away; the visit is defined only then.
     */
    method ScanField(edge: int, field: nat, ghost o: nat, ghost k: int) returns (defined: bool)
      requires w.WellFormed() && Inv(w, heap) && o in heap.traced && k in w.Slots(o)
      requires edge == w.Dest(o) + 8 * k && field == Word(heap.mem, w.Dest(o), k) && IsWordInHeap(w.cfg, field)
      modifies this
      ensures defined <==> CleanSlot(w, heap, w.Dest(o), k)
      ensures defined ==> V() == VisitOne(w, heap, w.Dest(o), k, old(V()))
    {
      if IsMmtkObject(w, heap, field) {
        VisitReads(w, heap, o, k);
        if heap.mem[field] !in w.classes {
          return false;
        }
        CleanTargetReadable(w, heap, o, k);
        ScanLockWords(field);
        if IsWeakRefId(w.cfg, w.classes[heap.mem[field]].id) {
          weakRefStack := weakRefStack + [field];
        }
        edges := edges + [edge];
      }
      return true;
    }

    /** The body both loops share: load the slot, and scan it if the word is in the heap range. */
    method VisitSlot(edge: int, ghost o: nat, ghost k: int, ghost before: seq<int>, ghost weak0: seq<nat>)
      returns (defined: bool)
      requires w.WellFormed() && Inv(w, heap) && o in heap.traced && k in w.Slots(o) && edge == w.Dest(o) + 8 * k
      requires V() == VisitAll(w, heap, w.Dest(o), before, weak0)
      modifies this
      ensures defined <==> CleanSlot(w, heap, w.Dest(o), k)
      ensures defined ==> V() == VisitAll(w, heap, w.Dest(o), before + [k], weak0)
    {
      VisitSnoc(w, heap, w.Dest(o), before, k, weak0);
      VisitReads(w, heap, o, k);
      var node := heap.mem[edge];
      defined := true;
      if IsWordInHeap(w.cfg, node) {
        defined := ScanField(edge, node, o, k);
      }
    }

    /** One entry of the reference map: the weak referent is skipped, any other slot visited. */
    method VisitEntry(self: nat, i: nat, ghost o: nat, ghost weak0: seq<nat>) returns (defined: bool)
      requires w.WellFormed() && Inv(w, heap) && o in heap.traced && self == w.Dest(o)
      requires !IsArrayId(w.cfg, w.Class(o).id) && i < MapLength(w.Class(o).refMap)
      requires CleanSlots(w, heap, self, FieldSlots(w.cfg, w.Class(o), i))
      requires V() == VisitAll(w, heap, self, FieldSlots(w.cfg, w.Class(o), i), weak0)
      modifies this
      ensures !defined ==> !CleanSlots(w, heap, self, w.Slots(o))
      ensures defined ==> CleanSlots(w, heap, self, FieldSlots(w.cfg, w.Class(o), i + 1))
      ensures defined ==> V() == VisitAll(w, heap, self, FieldSlots(w.cfg, w.Class(o), i + 1), weak0)
    {
      hide Inv;
      hide World.WellFormed;
      hide FieldSlots;
      hide CleanSlot;
      hide VisitAll;
      EntryReadable(w, heap, o, i);
      var offset := w.classes[heap.mem[self]].refMap[i];
      if IsReferentOfWeakReference(w.cfg, w.classes[heap.mem[self]].id, offset) {
        return true;
      }
      defined := VisitSlot(self + 16 + 8 * offset, o, 2 + offset, FieldSlots(w.cfg, w.Class(o), i), weak0);
    }

    method ObjectIterate(self: nat, ghost o: nat) returns (defined: bool)
      requires w.WellFormed() && Inv(w, heap) && o in heap.traced && self == w.Dest(o) && edges == []
      requires !IsArrayId(w.cfg, w.Class(o).id)
      modifies this
      ensures defined <==> CleanSlots(w, heap, self, w.Slots(o))
      ensures defined ==> V() == VisitAll(w, heap, self, w.Slots(o), old(weakRefStack))
    {
      hide World.WellFormed;
      hide World.Slots;
      hide World.SlotsOf;
      hide Inv;
      hide FieldSlots;
      hide CleanSlots;
      hide VisitAll;
      ghost var weak0 := weakRefStack;
      ghost var c := w.Class(o);
      MapReadable(w, heap, o);
      NothingVisited(w, heap, self, c, weak0);
      var ptrMap := w.classes[heap.mem[self]].refMap;
      var i := 0;
      while ptrMap[i] != LAST_FIELD_OFFSET
        invariant 0 <= i <= MapLength(ptrMap) < |ptrMap|
        invariant CleanSlots(w, heap, self, FieldSlots(w.cfg, c, i))
        invariant V() == VisitAll(w, heap, self, FieldSlots(w.cfg, c, i), weak0)
        decreases MapLength(ptrMap) - i
      {
        var readable := VisitEntry(self, i, o, weak0);
        if !readable {
          return false;
        }
        i := i + 1;
      }
      return true;
    }

    method ArrayIterate(self: nat, ghost o: nat) returns (defined: bool)
      requires w.WellFormed() && Inv(w, heap) && o in heap.traced && self == w.Dest(o) && edges == []
      requires IsArrayId(w.cfg, w.Class(o).id)
      modifies this
      ensures defined <==> CleanSlots(w, heap, self, w.Slots(o))
      ensures defined ==> V() == VisitAll(w, heap, self, w.Slots(o), old(weakRefStack))
    {
      ghost var weak0 := weakRefStack;
      ArrayReadable(w, heap, o);
      if w.classes[heap.mem[self]].id == w.cfg.objectArrayId {
        var length := LengthOf(heap.mem[self + 16]);
        ghost var all := w.Slots(o);
        for i := 0 to length
          invariant CleanSlots(w, heap, self, all[..i])
          invariant V() == VisitAll(w, heap, self, all[..i], weak0)
        {
          assert all[i] == 3 + i && all[..i + 1] == all[..i] + [3 + i];
          var readable := VisitSlot(ElementSlot(self, i), o, 3 + i, all[..i], weak0);
          if !readable {
            return false;
          }
        }
        assert all[..length] == all;
      }
      return true;
    }

    /**
     * The visit is defined exactly when nothing the slots lead to has moved away. Then the
     * edges are the visited slots' addresses, and the weak stack gains what the first
     * phase pushes.
     */
    method ScanObject(self: nat, ghost o: nat) returns (defined: bool)
      requires w.WellFormed() && Inv(w, heap) && o in heap.traced && self == w.Dest(o) && edges == []
      modifies this
      ensures defined <==> CleanSlots(w, heap, self, w.SlotsOf(heap.mem, self))
      ensures defined ==> edges == EdgeAddresses(self, Visited(w, heap, self, w.SlotsOf(heap.mem, self)))
      ensures defined ==> weakRefStack == old(weakRefStack) + WeakSeen(w, heap, self, w.SlotsOf(heap.mem, self))
    {
      HeaderReadable(w, heap, o);
      HeaderOfImage(w, heap, o);
      VisitAllIsTwoPhase(w, heap, self, w.Slots(o), weakRefStack);
      if IsArrayId(w.cfg, w.classes[heap.mem[self]].id) {
        defined := ArrayIterate(self, o);
      } else {
        defined := ObjectIterate(self, o);
      }
    }
  }
}
