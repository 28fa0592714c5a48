// The scanning code itself: loops over maps and elements, stores into slots, in-place copies.
// Every load and store is inside memory, and every method computes its step of Tracing.
module ObjectScanning {
  import opened Abi
  import opened Heap
  import opened ObjectModel
  import opened Tracing
  import opened Invariant
  import opened ScanSteps
  import opened Evacuation

  class Collector {
    const w: World
    var mem: Memory
    var locks: map<nat, nat>
    var weakRefStack: seq<nat>
    var traced: set<nat>
    var queue: seq<nat>

    function S(): State
      reads this
    {
      State(mem, locks, weakRefStack, traced, queue)
    }

    constructor (w: World, weak: seq<nat>)
      ensures this.w == w && S() == State(w.mem0, w.locks0, weak, {}, [])
    {
      this.w := w;
      mem, locks, weakRefStack, traced, queue := w.mem0, w.locks0, weak, {}, [];
    }

    // ---------- ObjectModel::copy, and the tracer that calls it ----------

    method SizeForCopy(o: nat, ghost bits: nat) returns (bytes: nat)
      requires w.WellFormed() && o in w.objects && mem.Keys == w.mem0.Keys
      requires bits < Alignment(w.cfg) && TaggedImage(w, mem, o, bits)
      ensures bytes == w.SizeForCopyAt(mem, o) == w.SizeAt(w.mem0, o)
    {
      SizeForCopyIgnoresTagBits(w, mem, o, bits);
      SizeFacts(w, o);
      assert w.ObjectOk(o) && w.ClassOk(w.Old(o, 0)) && Readable(w.mem0, o, 0);
      HeaderRoom(w, w.Old(o, 0), bits);
      AlignPtrDropsTagBits(w.cfg, w.Old(o, 0), bits);
      var rtti := AlignPtr(w.cfg, mem[o]);
      if IsArrayId(w.cfg, w.classes[rtti].id) {
        assert Readable(w.mem0, o, 2);
        bytes := ArraySize(w.cfg, mem[o + 16]);
      } else {
        bytes := PlainSize(w.cfg, w.classes[rtti]);
      }
    }

    method Copy(from: nat, ghost bits: nat) returns (to: nat)
      requires Copyable(w, mem, from, bits)
      modifies `mem
      ensures to == w.Dest(from) && from in mem && mem == CopyObject(w, old(mem), from, to)
    {
      AlignmentIsWordMultiple(w.cfg);
      SizeFacts(w, from);
      var bytes := SizeForCopy(from, bits);
      to := w.Dest(from); // alloc_copy
      mem := CopyWords(mem, from, to, bytes);
      assert w.DestOk(from) && Readable(w.mem0, to, 0);
      assert w.ObjectOk(from) && Readable(w.mem0, from, 0);
      mem := mem[to := ClearForwardingBits(mem[to])]; // post_copy
    }

    /** mmtk-core around the binding's copy. */
    method ForwardObject(o: nat) returns (to: nat)
      requires Evacuable(w, mem, o) && w.Moves(o)
      modifies `mem
      ensures to == w.Dest(o) && mem == Evacuate(w, old(mem), o)
    {
      MarkedIsCopyable(w, mem, o);
      hide Evacuable;
      hide Copyable;
      hide CopyObject;
      hide MarkHeader;
      hide LeaveForwardingWord;
      mem := MarkHeader(mem, o);
      to := Copy(o, BEING_FORWARDED);
      mem := LeaveForwardingWord(w, mem, o);
    }

    method TraceObject(o: nat) returns (t: nat)
      requires w.WellFormed() && Objects(w, mem, traced) && (IsMmtkObject(w, S(), o) || o == 0)
      modifies this
      ensures S() == Trace(w, old(S()), o) && t == Forward(w, o)
    {
      t := o;
      if o in w.objects && o in traced {
        t := w.Dest(o);
      } else if o in w.objects {
        assert Intact(w, mem, o);
        if w.Moves(o) {
          t := ForwardObject(o);
        }
        traced, queue := traced + {o}, queue + [t];
      }
    }

    /** The tracer on a pinned root: no copy is made, whatever else is still to be traced. */
    method TracePinnedRoot(root: nat)
      requires root in w.objects && !w.Moves(root)
      modifies `traced, `queue
      ensures S() == Trace(w, old(S()), root)
    {
      if root !in traced {
        traced, queue := traced + {root}, queue + [root];
      }
    }

    // ---------- mmtk_scan_lock_words_and_trace_edges ----------

    /** The block the source runs for each of the two lock words: trace the monitor, store into the class. */
    method RetraceLockWord(a: nat, lock: nat, ghost v: nat, ghost origin: nat)
      requires w.WellFormed() && Inv(w, S()) && v in traced && a == w.Dest(v)
      requires Retraceable(w, S(), w.Old(v, 0), lock, origin)
      modifies this
      ensures S() == RetraceLock(w, old(S()), w.Old(v, 0), lock)
    {
      if FieldIsInflatedLock(lock) {
        var node := FieldAlignedLockRef(lock);
        assert IsMmtkObject(w, S(), node);
        TraceMonitor(w, S(), node, origin);
        var tracedRef := TraceObject(node);
        HeaderReadable(w, S(), v);
        locks := locks[mem[a] := FieldInflateLockRef(tracedRef)];
      }
    }

    method ScanLockWordsAndTraceEdges(a: nat, ghost v: nat)
      requires w.WellFormed() && Inv(w, S()) && v in traced && a == w.Dest(v)
      requires IsSlotTarget(w, v)
      modifies this
      ensures S() == ScanLocks(w, old(S()), a)
      ensures LooksSound(w, S(), v) && mem.Keys == old(mem.Keys)
    {
      hide World.WellFormed;
      hide Inv;
      hide Retraceable;
      hide RetraceLock;
      hide ScanLocks;
      hide LooksSound;
      ScannedLooksSound(w, S(), v);
      ghost var origin, s1 := LockScanStages(w, S(), v);
      if a != 0 {
        RetraceLockWord(a, locks[mem[a]], v, origin);
        assert S() == s1;
        RetraceLockWord(a, mem[a + 8], v, FieldAlignedLockRef(w.Old(v, 1)));
      }
    }

    // ---------- mmtk_scan_field_and_trace_edges ----------

    method ScanFieldAndTraceEdges(edge: int, field: nat, ghost o: nat, ghost k: int)
      requires w.WellFormed() && Inv(w, S()) && o in traced && k in w.Slots(o)
      requires edge == w.Dest(o) + 8 * k && field == Word(mem, w.Dest(o), k)
      requires IsWordInHeap(w.cfg, field)
      modifies this
      ensures S() == ScanSlot(w, old(S()), w.Dest(o), k)
    {
      hide World.WellFormed;
      hide Inv;
      hide IsMmtkObject;
      hide LooksSound;
      hide ScanLocks;
      hide ScanSlot;
      ghost var s0 := S();
      if IsMmtkObject(w, S(), field) {
        var t := TraceTarget(field, o, k);
        ScanSlotUnfolds(w, s0, w.Dest(o), k, S());
        RecordAndUpdate(edge, t);
      } else {
        ScanSlotSkips(w, s0, w.Dest(o), k);
      }
    }

    /** The beginning of mmtk_scan_field_and_trace_edges: trace the target and scan its lock words. */
    method TraceTarget(field: nat, ghost o: nat, ghost k: int) returns (t: nat)
      requires w.WellFormed() && Inv(w, S()) && o in traced && k in w.Slots(o)
      requires field == Word(mem, w.Dest(o), k) && IsMmtkObject(w, S(), field)
      modifies this
      ensures t == Forward(w, field) && S() == ScanLocks(w, Trace(w, old(S()), field), t)
      ensures t in mem && mem[t] in w.classes && w.Dest(o) + 8 * k in mem
    {
      assert Objects(w, mem, traced);
      hide World.WellFormed;
      hide Inv;
      hide Objects;
      hide IsMmtkObject;
      hide IsSlotTarget;
      hide ScanLocks;
      ghost var s0 := S();
      ScanSlotChecks(w, s0, o, k, field);
      t := TraceObject(field);
      assert S() == Trace(w, s0, field);
      hide Trace;
      ScanLockWordsAndTraceEdges(t, w.Old(o, k));
    }

    /** The end of mmtk_scan_field_and_trace_edges: record a weak reference, update the slot. */
    method RecordAndUpdate(edge: int, t: nat)
      requires t in mem && mem[t] in w.classes && edge in mem
      modifies `weakRefStack, `mem
      ensures mem == old(mem)[edge := t]
      ensures weakRefStack ==
              if IsWeakRefId(w.cfg, w.ClassAt(old(mem), t).id) then old(weakRefStack) + [t] else old(weakRefStack)
    {
      assert Word(mem, t, 0) == mem[t];
      if IsWeakRefId(w.cfg, w.classes[mem[t]].id) {
        weakRefStack := weakRefStack + [t];
      }
      mem := mem[edge := t];
    }

    // ---------- obj_iterate_and_trace_edges ----------

    /** The body both loops share: load the slot, and scan it if the word is in the heap range. */
    method ScanNextSlot(edge: int, ghost o: nat, ghost s0: State, ghost before: seq<int>, ghost k: int)
      requires w.WellFormed() && Inv(w, S()) && o in traced && k in w.Slots(o) && edge == w.Dest(o) + 8 * k
      requires S() == ScanSlots(w, s0, w.Dest(o), before)
      modifies this
      ensures Inv(w, S()) && o in traced
      ensures S() == ScanSlots(w, s0, w.Dest(o), before + [k])
    {
      ghost var next := SlotLoopStep(w, s0, S(), o, before, k, before + [k]);
      var node := mem[edge];
      if IsWordInHeap(w.cfg, node) {
        ScanFieldAndTraceEdges(edge, node, o, k);
      } else {
        ScanSlotSkips(w, S(), w.Dest(o), k);
      }
      assert S() == next;
    }

    /** One entry of the reference map: the weak referent is skipped, any other slot scanned. */
    method ScanEntry(self: nat, i: nat, ghost o: nat, ghost s0: State)
      requires w.WellFormed() && Inv(w, S()) && o in traced && self == w.Dest(o)
      requires !IsArrayId(w.cfg, w.Class(o).id) && i < MapLength(w.Class(o).refMap)
      requires S() == ScanSlots(w, s0, self, FieldSlots(w.cfg, w.Class(o), i))
      modifies this
      ensures Inv(w, S()) && o in traced
      ensures S() == ScanSlots(w, s0, self, FieldSlots(w.cfg, w.Class(o), i + 1))
    {
      hide World.WellFormed;
      hide Inv;
      hide FieldSlots;
      hide ScanSlots;
      EntryReadable(w, S(), o, i);
      var offset := w.classes[mem[self]].refMap[i];
      if !IsReferentOfWeakReference(w.cfg, w.classes[mem[self]].id, offset) {
        ScanNextSlot(self + 16 + 8 * offset, o, s0, FieldSlots(w.cfg, w.Class(o), i), 2 + offset);
      }
    }

    method ObjectIterateAndTraceEdges(self: nat, ghost o: nat)
      requires w.WellFormed() && Inv(w, S()) && o in traced && self == w.Dest(o)
      requires !IsArrayId(w.cfg, w.Class(o).id)
      modifies this
      ensures S() == ScanNode(w, old(S()), self)
    {
      hide World.WellFormed;
      hide World.Slots;
      hide World.SlotsOf;
      hide Inv;
      hide FieldSlots;
      hide ScanSlots;
      ghost var s0 := S();
      ghost var c := w.Class(o);
      MapReadable(w, s0, o);
      NothingScanned(w, s0, self, c);
      var ptrMap := w.classes[mem[self]].refMap;
      var i := 0;
      while ptrMap[i] != LAST_FIELD_OFFSET
        invariant 0 <= i <= MapLength(ptrMap) < |ptrMap|
        invariant o in traced && Inv(w, S())
        invariant S() == ScanSlots(w, s0, self, FieldSlots(w.cfg, c, i))
        decreases MapLength(ptrMap) - i
      {
        ScanEntry(self, i, o, s0);
        i := i + 1;
      }
    }

    method ArrayIterateAndTraceEdges(self: nat, ghost o: nat)
      requires w.WellFormed() && Inv(w, S()) && o in traced && self == w.Dest(o)
      requires IsArrayId(w.cfg, w.Class(o).id)
      modifies this
      ensures S() == ScanNode(w, old(S()), self)
    {
      ghost var s0 := S();
      ghost var all := w.Slots(o);
      ArrayReadable(w, s0, o);
      if w.classes[mem[self]].id == w.cfg.objectArrayId {
        var length := LengthOf(mem[self + 16]);
        for i := 0 to length
          invariant o in traced && Inv(w, S())
          invariant S() == ScanSlots(w, s0, self, all[..i])
        {
          assert all[i] == 3 + i && all[..i + 1] == all[..i] + [3 + i];
          ScanNextSlot(ElementSlot(self, i), o, s0, all[..i], 3 + i);
        }
        assert all[..length] == all;
      }
    }

    method ScanObjectAndTraceEdges(self: nat, ghost o: nat)
      requires w.WellFormed() && Inv(w, S()) && o in traced && self == w.Dest(o)
      modifies this
      ensures S() == ScanNode(w, old(S()), self)
    {
      HeaderReadable(w, S(), o);
      HeaderOfImage(w, S(), o);
      if IsArrayId(w.cfg, w.classes[mem[self]].id) {
        ArrayIterateAndTraceEdges(self, o);
      } else {
        ObjectIterateAndTraceEdges(self, o);
      }
    }

    // ---------- the worklist ----------

    /** Scan queued nodes, taking any of them each time, until none is left. */
    method Drain(ghost scanned: seq<nat>) returns (ghost picks: seq<nat>)
      requires w.WellFormed() && Inv(w, S()) && TriColour(w, S()) && Enumerates(w, S(), scanned)
      modifies this
      ensures queue == [] && IsRun(w, old(S()), picks) && S() == Run(w, old(S()), picks)
    {
      hide World.WellFormed;
      hide Inv;
      hide TriColour;
      hide Enumerates;
      ghost var s0 := S();
      ghost var done := scanned;
      picks := [];
      while queue != []
        invariant Inv(w, S()) && TriColour(w, S()) && Enumerates(w, S(), done)
        invariant IsRun(w, s0, picks) && S() == Run(w, s0, picks)
        decreases w.objects - traced, |queue|
      {
        var i: nat :| i < |queue|;
        var a := queue[i];
        ghost var o := TakeNode(w, s0, picks, S(), i, done);
        queue := Without(queue, i);
        ScanObjectAndTraceEdges(a, o);
        done, picks := done + [a], picks + [i];
      }
    }
  }
}
