// The collector's mutable state, what mmtk-core's `trace_object` is taken to do to it,
// and the meaning of each scanning step of the binding as a function on that state.
module Tracing {
  import opened Abi
  import opened Heap
  import opened ObjectModel

  /**
   * `traced` are the objects (by their starting address) that `trace_object` has
   * visited; `queue` the nodes it enqueued and nobody has scanned yet; `weak` is
   * WEAK_REF_STACK.
   */
  datatype State = State(
    mem: Memory, locks: map<nat, nat>, weak: seq<nat>, traced: set<nat>, queue: seq<nat>)

  // ---------- the tracer contract ----------

  predicate IsImage(w: World, traced: set<nat>, a: nat)
  {
    exists o :: o in traced && w.Dest(o) == a
  }

  /** `is_mmtk_object`: the valid-object bits are those of the starting objects and of their copies. */
  predicate IsMmtkObject(w: World, s: State, a: nat)
  {
    a in w.objects || IsImage(w, s.traced, a)
  }

  /** The reference `trace_object` returns. */
  function Forward(w: World, a: nat): nat
  {
    if a in w.objects then w.Dest(a) else a
  }

  /** A lock word with its monitor forwarded. */
  function Retagged(w: World, lock: nat): nat
  {
    if FieldIsInflatedLock(lock) then FieldInflateLockRef(Forward(w, FieldAlignedLockRef(lock))) else lock
  }

  /** mmtk-core claims an object for forwarding. */
  function MarkHeader(mem: Memory, o: nat): Memory
  {
    Store(mem, o, 0, Word(mem, o, 0) + BEING_FORWARDED)
  }

  /** mmtk-core leaves the new address, with both forwarding bits, in the old header. */
  function LeaveForwardingWord(w: World, mem: Memory, o: nat): Memory
  {
    Store(mem, o, 0, w.Dest(o) + FORWARDED)
  }

  /** Mark the header, run the binding's copy, leave the forwarding word behind. */
  function Evacuate(w: World, mem: Memory, o: nat): Memory
  {
    if !w.Moves(o) then mem
    else LeaveForwardingWord(w, CopyObject(w, MarkHeader(mem, o), o, w.Dest(o)), o)
  }

  /** `trace_object`: the first visit evacuates and enqueues, every other visit changes nothing. */
  function Trace(w: World, s: State, a: nat): State
  {
    if a in w.objects && a !in s.traced then
      s.(mem := Evacuate(w, s.mem, a), traced := s.traced + {a}, queue := s.queue + [w.Dest(a)])
    else s
  }

  // ---------- the binding's steps ----------

  function Lock(locks: map<nat, nat>, rtti: nat): nat { if rtti in locks then locks[rtti] else 0 }

  /** Trace the monitor of an inflated lock word and store it, tagged, into the class lock word. */
  function RetraceLock(w: World, s: State, rtti: nat, lock: nat): State
  {
    if FieldIsInflatedLock(lock) then
      var monitor := FieldAlignedLockRef(lock);
      var s' := Trace(w, s, monitor);
      s'.(locks := s'.locks[rtti := FieldInflateLockRef(Forward(w, monitor))])
    else s
  }

  /** `mmtk_scan_lock_words_and_trace_edges`; the second store goes to the class, as in the source. */
  function ScanLocks(w: World, s: State, a: nat): State
  {
    var s' := RetraceLock(w, s, Word(s.mem, a, 0), Lock(s.locks, Word(s.mem, a, 0)));
    RetraceLock(w, s', Word(s'.mem, a, 0), Word(s'.mem, a, 1))
  }

  function PushIfWeak(w: World, s: State, a: nat): State
  {
    if IsWeakRefId(w.cfg, w.ClassAt(s.mem, a).id) then s.(weak := s.weak + [a]) else s
  }

  /** `mmtk_scan_field_and_trace_edges` on the k-th word of `a`, behind its heap-range guard. */
  function ScanSlot(w: World, s: State, a: nat, k: int): State
  {
    var field := Word(s.mem, a, k);
    if IsWordInHeap(w.cfg, field) && IsMmtkObject(w, s, field) then
      var traced := Forward(w, field);
      var s' := PushIfWeak(w, ScanLocks(w, Trace(w, s, field), traced), traced);
      s'.(mem := Store(s'.mem, a, k, traced))
    else s
  }

  /** The same step with its last two effects, the push and the store, written out. */
  lemma ScanSlotUnfolds(w: World, s: State, a: nat, k: int, s2: State)
    requires var field := Word(s.mem, a, k);
             && IsWordInHeap(w.cfg, field) && IsMmtkObject(w, s, field)
             && s2 == ScanLocks(w, Trace(w, s, field), Forward(w, field))
    requires a + 8 * k in s2.mem
    ensures var t := Forward(w, Word(s.mem, a, k));
            ScanSlot(w, s, a, k) ==
            State(s2.mem[a + 8 * k := t], s2.locks,
                  if IsWeakRefId(w.cfg, w.ClassAt(s2.mem, t).id) then s2.weak + [t] else s2.weak,
                  s2.traced, s2.queue)
  {
  }

  lemma ScanSlotSkips(w: World, s: State, a: nat, k: int)
    requires !IsWordInHeap(w.cfg, Word(s.mem, a, k)) || !IsMmtkObject(w, s, Word(s.mem, a, k))
    ensures ScanSlot(w, s, a, k) == s
  {
  }

  function ScanSlots(w: World, s: State, a: nat, slots: seq<int>): State
  {
    if slots == [] then s
    else ScanSlot(w, ScanSlots(w, s, a, slots[..|slots| - 1]), a, slots[|slots| - 1])
  }

  /** `scan_object_and_trace_edges`. */
  function ScanNode(w: World, s: State, a: nat): State
  {
    ScanSlots(w, s, a, w.SlotsOf(s.mem, a))
  }
}
