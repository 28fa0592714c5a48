// Conservative root scanning: thread stacks and registers, modules, and the closure of
// every root over the monitors of inflated locks.
module RootScanning {
  import opened Bits
  import opened Abi
  import opened Heap
  import opened RootsReporting

  // ---------- what a root scan reports, as functions of memory ----------

  /** `mmtk_mark_field`'s guard. */
  predicate ValidField(w: World, field: nat)
  {
    IsWordInHeap(w.cfg, field) && field in w.objects
  }

  function MonitorOf(w: World, lock: nat): seq<nat>
  {
    if FieldIsInflatedLock(lock) && ValidField(w, FieldAlignedLockRef(lock)) then [FieldAlignedLockRef(lock)] else []
  }

  /** The monitors an object's lock words lead to: its class's first, then its own. */
  function Monitors(w: World, o: nat): seq<nat>
  {
    MonitorOf(w, w.Lock0(w.Old(o, 0))) + MonitorOf(w, w.Old(o, 1))
  }

  /**
   * A rank on some objects and their monitors, each monitor below the objects it locks: the marking
   * recursion has no visited set and needs one on what it comes across.
   */
  ghost predicate Ranked(w: World, rank: map<nat, nat>)
  {
    rank.Keys <= w.objects && forall o {:trigger AboveMonitors(w, rank, o)} :: o in rank ==> AboveMonitors(w, rank, o)
  }

  ghost predicate AboveMonitors(w: World, rank: map<nat, nat>, o: nat)
    requires o in rank
  {
    forall m :: m in Monitors(w, o) ==> m in rank && rank[m] < rank[o]
  }

  /** The rank covers the object a field leads to, if it leads to one. */
  ghost predicate Covered(w: World, rank: map<nat, nat>, field: nat)
  {
    ValidField(w, field) ==> field in rank
  }

  /** What marking an object reports: the closures of its monitors, then the object. */
  ghost function LockClosure(w: World, rank: map<nat, nat>, o: nat): seq<nat>
    requires Ranked(w, rank) && o in rank
    decreases rank[o], 0
  {
    assert AboveMonitors(w, rank, o);
    ClosureOf(w, rank, Monitors(w, o), rank[o]) + [o]
  }

  /** The closures of several objects of rank below `bound`, one after the other. */
  ghost function ClosureOf(w: World, rank: map<nat, nat>, objects: seq<nat>, bound: nat): seq<nat>
    requires Ranked(w, rank) && forall m :: m in objects ==> m in rank && rank[m] < bound
    decreases bound, 0, |objects|
  {
    if objects == [] then []
    else
      ClosureOf(w, rank, objects[..|objects| - 1], bound) + LockClosure(w, rank, objects[|objects| - 1])
  }

  ghost function FieldClosure(w: World, rank: map<nat, nat>, field: nat): seq<nat>
    requires Ranked(w, rank)
  {
    if ValidField(w, field) && field in rank then LockClosure(w, rank, field) else []
  }

  /** A scanned word is a root exactly when it is aligned, in the heap range, and the address of a valid object. */
  ghost function WordClosure(w: World, rank: map<nat, nat>, word: nat): seq<nat>
    requires Ranked(w, rank)
  {
    if word % Alignment(w.cfg) == 0 then FieldClosure(w, rank, word) else []
  }

  /** Every word from `start` up to and including `end`. */
  ghost function RangeClosure(w: World, rank: map<nat, nat>, start: int, end: int): seq<nat>
    requires Ranked(w, rank)
    decreases end - start
  {
    if start > end then [] else WordClosure(w, rank, Word(w.mem0, start, 0)) + RangeClosure(w, rank, start + 8, end)
  }

  datatype Ranges = Ranges(stackTop: int, stackBottom: int, regs: int, regsSize: nat)

  ghost function ThreadClosure(w: World, rank: map<nat, nat>, r: Ranges): seq<nat>
    requires Ranked(w, rank)
  {
    RangeClosure(w, rank, r.stackTop, r.stackBottom) + RangeClosure(w, rank, r.regs, r.regs + 8 * r.regsSize)
  }

  ghost function ThreadsClosure(w: World, rank: map<nat, nat>, threads: seq<Ranges>): seq<nat>
    requires Ranked(w, rank)
  {
    if threads == [] then []
    else ThreadsClosure(w, rank, threads[..|threads| - 1]) + ThreadClosure(w, rank, threads[|threads| - 1])
  }

  ghost function ModulesClosure(w: World, rank: map<nat, nat>, modules: seq<nat>): seq<nat>
    requires Ranked(w, rank)
  {
    if modules == [] then []
    else ModulesClosure(w, rank, modules[..|modules| - 1]) + FieldClosure(w, rank, modules[|modules| - 1])
  }

  /** The roots of a collection, in the order they are reported. */
  ghost function VmRoots(w: World, rank: map<nat, nat>, threads: seq<Ranges>, modules: seq<nat>): seq<nat>
    requires Ranked(w, rank)
  {
    ThreadsClosure(w, rank, threads) + ModulesClosure(w, rank, modules)
  }

  /** The weak references among reported objects, in order. */
  function WeakOf(w: World, objects: seq<nat>): seq<nat>
  {
    if objects == [] then []
    else
      var last := objects[|objects| - 1];
      WeakOf(w, objects[..|objects| - 1]) + (if w.IsWeak(last) then [last] else [])
  }

  lemma {:induction false} WeakOfConcat(w: World, a: seq<nat>, b: seq<nat>)
    ensures WeakOf(w, a + b) == WeakOf(w, a) + WeakOf(w, b)
    decreases |b|
  {
    if b == [] {
      assert a + b == a;
    } else {
      var front, last := b[..|b| - 1], b[|b| - 1];
      WeakOfConcat(w, a, front);
      assert (a + b)[..|a + b| - 1] == a + front;
      var tail := if w.IsWeak(last) then [last] else [];
      assert WeakOf(w, a) + (WeakOf(w, front) + tail) == WeakOf(w, a) + WeakOf(w, front) + tail;
    }
  }

  lemma {:induction false} WeakOfExactly(w: World, objects: seq<nat>, a: nat)
    ensures a in WeakOf(w, objects) <==>
            a in objects && w.cfg.weakRefIdsMin <= w.Class(a).id <= w.cfg.weakRefIdsMax
  {
    if objects != [] {
      WeakOfExactly(w, objects[..|objects| - 1], a);
      assert objects == objects[..|objects| - 1] + [objects[|objects| - 1]];
    }
  }

  /** The reporter's history and the weak stack, which every marking call extends together. */
  datatype Log = Log(history: seq<nat>, weak: seq<nat>)

  function Extend(w: World, log: Log, reported: seq<nat>): Log
  {
    Log(log.history + reported, log.weak + WeakOf(w, reported))
  }

  lemma ExtendTwice(w: World, log: Log, a: seq<nat>, b: seq<nat>)
    ensures Extend(w, Extend(w, log, a), b) == Extend(w, log, a + b)
  {
    WeakOfConcat(w, a, b);
    assert log.history + a + b == log.history + (a + b);
    assert log.weak + WeakOf(w, a) + WeakOf(w, b) == log.weak + (WeakOf(w, a) + WeakOf(w, b));
  }

  lemma ExtendByNothing(w: World, log: Log)
    ensures Extend(w, log, []) == log
  {
  }

  /** An object is reported, and pushed if it is weak, after the closures of its monitors. */
  lemma MarkedLast(w: World, rank: map<nat, nat>, log: Log, o: nat, monitors: Log)
    requires Ranked(w, rank) && o in rank && AboveMonitors(w, rank, o)
    requires monitors == Extend(w, log, ClosureOf(w, rank, Monitors(w, o), rank[o]))
    ensures Extend(w, log, LockClosure(w, rank, o)) ==
            Log(monitors.history + [o], if w.IsWeak(o) then monitors.weak + [o] else monitors.weak)
  {
    ExtendTwice(w, log, ClosureOf(w, rank, Monitors(w, o), rank[o]), [o]);
    assert WeakOf(w, [o]) == WeakOf(w, []) + if w.IsWeak(o) then [o] else [];
  }

  /** One word of a range. */
  lemma RangeStep(w: World, rank: map<nat, nat>, log: Log, done: seq<nat>, current: int, end: int)
    requires Ranked(w, rank) && current <= end && current in w.mem0 && w.mem0[current] < TWO_64
    ensures var addr := w.mem0[current];
            var here := WordClosure(w, rank, addr);
            && done + here + RangeClosure(w, rank, current + 8, end) == done + RangeClosure(w, rank, current, end)
            && Extend(w, Extend(w, log, done), here) == Extend(w, log, done + here)
  {
    var addr := w.mem0[current];
    var here := WordClosure(w, rank, addr);
    assert Word(w.mem0, current, 0) == addr;
    ExtendTwice(w, log, done, here);
    var rest := RangeClosure(w, rank, current + 8, end);
    assert done + (here + rest) == done + here + rest;
  }

  lemma DropSplits(p0: seq<seq<nat>>, p1: seq<seq<nat>>, p2: seq<seq<nat>>)
    requires p0 <= p1 <= p2
    ensures p0 <= p2 && p2[|p0|..] == p1[|p0|..] + p2[|p1|..]
  {
  }

  lemma Associative(a: seq<nat>, b: seq<nat>, c: seq<nat>)
    ensures a + b + c == a + (b + c)
  {
  }

  /** Two reporters, one after the other, deliver what both were given. */
  lemma TwoReporters(w: World, p0: seq<seq<nat>>, p1: seq<seq<nat>>, p2: seq<seq<nat>>,
                     weak0: seq<nat>, a: seq<nat>, b: seq<nat>)
    requires p0 <= p1 <= p2 && Flatten(p1[|p0|..]) == a && Flatten(p2[|p1|..]) == b
    ensures p0 <= p2 && Flatten(p2[|p0|..]) == a + b
    ensures weak0 + WeakOf(w, a) + WeakOf(w, b) == weak0 + WeakOf(w, a + b)
  {
    hide Flatten;
    hide WeakOf;
    DropSplits(p0, p1, p2);
    FlattenConcat(p1[|p0|..], p2[|p1|..]);
    WeakOfConcat(w, a, b);
    Associative(weak0, WeakOf(w, a), WeakOf(w, b));
  }

  lemma ClosureOfMonitors(w: World, rank: map<nat, nat>, o: nat)
    requires Ranked(w, rank) && o in rank
    ensures AboveMonitors(w, rank, o)
    ensures var l1, l2 := w.Lock0(w.Old(o, 0)), w.Old(o, 1);
            ClosureOf(w, rank, Monitors(w, o), rank[o]) == MonitorClosure(w, rank, l1) + MonitorClosure(w, rank, l2)
  {
    hide ClosureOf;
    hide LockClosure;
    hide FieldIsInflatedLock;
    hide FieldAlignedLockRef;
    var a, b := MonitorOf(w, w.Lock0(w.Old(o, 0))), MonitorOf(w, w.Old(o, 1));
    assert AboveMonitors(w, rank, o);
    TwoClosures(w, rank, a, b, rank[o]);
    SingleClosure(w, rank, a, rank[o]);
    SingleClosure(w, rank, b, rank[o]);
  }

  lemma TwoClosures(w: World, rank: map<nat, nat>, a: seq<nat>, b: seq<nat>, bound: nat)
    requires Ranked(w, rank) && |b| <= 1 && forall m :: m in a + b ==> m in rank && rank[m] < bound
    ensures forall m :: m in a ==> m in rank && rank[m] < bound
    ensures forall m :: m in b ==> m in rank && rank[m] < bound
    ensures ClosureOf(w, rank, a + b, bound) == ClosureOf(w, rank, a, bound) + ClosureOf(w, rank, b, bound)
  {
    hide Ranked;
    hide LockClosure;
    assert forall m :: m in a || m in b ==> m in a + b;
    if b == [] {
      assert a + b == a;
    } else {
      assert (a + b)[..|a|] == a && b[..0] == [];
    }
  }

  ghost function MonitorClosure(w: World, rank: map<nat, nat>, lock: nat): seq<nat>
    requires Ranked(w, rank)
  {
    if FieldIsInflatedLock(lock) then FieldClosure(w, rank, FieldAlignedLockRef(lock)) else []
  }

  lemma SingleClosure(w: World, rank: map<nat, nat>, a: seq<nat>, bound: nat)
    requires Ranked(w, rank) && |a| <= 1 && forall m :: m in a ==> m in rank && rank[m] < bound
    ensures ClosureOf(w, rank, a, bound) == if a == [] then [] else LockClosure(w, rank, a[0])
  {
    if a != [] {
      assert a[..0] == [];
    }
  }

  lemma MonitorRank(w: World, rank: map<nat, nat>, o: nat, lock: nat)
    requires Ranked(w, rank) && o in rank && (lock == w.Lock0(w.Old(o, 0)) || lock == w.Old(o, 1))
    ensures FieldIsInflatedLock(lock) && ValidField(w, FieldAlignedLockRef(lock)) ==>
              FieldAlignedLockRef(lock) in rank && rank[FieldAlignedLockRef(lock)] < rank[o]
  {
    if FieldIsInflatedLock(lock) && ValidField(w, FieldAlignedLockRef(lock)) {
      assert FieldAlignedLockRef(lock) in MonitorOf(w, lock);
      assert FieldAlignedLockRef(lock) in Monitors(w, o);
      assert AboveMonitors(w, rank, o);
    }
  }

  // ---------- the code ----------

  /** What root scanning reads of the heap: the header, lock word and class of every valid object. */
  ghost predicate HeadersReadable(w: World)
  {
    forall o {:trigger HeaderReadable(w, o)} :: o in w.objects ==> HeaderReadable(w, o)
  }

  ghost predicate HeaderReadable(w: World, o: nat)
  {
    0 < o && o in w.mem0 && o + 8 in w.mem0 && w.mem0[o] in w.classes && w.mem0[o] in w.locks0
  }

  ghost predicate RangeReadable(w: World, start: int, end: int)
  {
    forall n {:trigger Readable(w.mem0, start, n)} :: 0 <= n && start + 8 * n <= end ==>
      Readable(w.mem0, start, n) && Word(w.mem0, start, n) < TWO_64
  }

  ghost predicate ThreadReadable(w: World, r: Ranges)
  {
    RangeReadable(w, r.stackTop, r.stackBottom) && RangeReadable(w, r.regs, r.regs + 8 * r.regsSize)
  }

  // ---------- what the rank must cover ----------

  ghost predicate WordCovered(w: World, rank: map<nat, nat>, word: nat)
  {
    word % Alignment(w.cfg) == 0 ==> Covered(w, rank, word)
  }

  ghost predicate CoveredAt(w: World, rank: map<nat, nat>, start: int, n: int)
  {
    WordCovered(w, rank, Word(w.mem0, start, n))
  }

  ghost predicate RangeCovered(w: World, rank: map<nat, nat>, start: int, end: int)
  {
    forall n {:trigger CoveredAt(w, rank, start, n)} :: 0 <= n && start + 8 * n <= end ==> CoveredAt(w, rank, start, n)
  }

  ghost predicate ThreadCovered(w: World, rank: map<nat, nat>, r: Ranges)
  {
    RangeCovered(w, rank, r.stackTop, r.stackBottom) && RangeCovered(w, rank, r.regs, r.regs + 8 * r.regsSize)
  }

  ghost predicate ModulesCovered(w: World, rank: map<nat, nat>, modules: seq<nat>)
  {
    forall m :: m in modules ==> Covered(w, rank, m)
  }

  class MutatorThreadNode {
    const value: nat
    var next: MutatorThreadNode?

    constructor (value: nat, next: MutatorThreadNode?)
      ensures this.value == value && this.next == next
    {
      this.value, this.next := value, next;
    }
  }

  /** The nodes from `head` to the null at the end, in order. */
  ghost predicate ListOf(head: MutatorThreadNode?, spine: seq<MutatorThreadNode>)
    reads spine
  {
    && head == NodeAt(spine, 0)
    && forall i :: 0 <= i < |spine| ==> spine[i].next == NodeAt(spine, i + 1)
  }

  function NodeAt(spine: seq<MutatorThreadNode>, i: nat): MutatorThreadNode?
  {
    if i < |spine| then spine[i] else null
  }

  /** The ranges of the threads along a list. */
  ghost function RangesOf(ranges: map<nat, Ranges>, spine: seq<MutatorThreadNode>): seq<Ranges>
    requires forall n :: n in spine ==> n.value in ranges
  {
    if spine == [] then [] else RangesOf(ranges, spine[..|spine| - 1]) + [ranges[spine[|spine| - 1].value]]
  }

  /** One pair of ranges for each node of the list, in its order. */
  lemma {:induction false} RangesOfEach(ranges: map<nat, Ranges>, spine: seq<MutatorThreadNode>, i: nat)
    requires i < |spine| && forall n :: n in spine ==> n.value in ranges
    ensures |RangesOf(ranges, spine)| == |spine| && RangesOf(ranges, spine)[i] == ranges[spine[i].value]
  {
    if |spine| > 1 {
      RangesOfEach(ranges, spine[..|spine| - 1], if i < |spine| - 1 then i else 0);
    }
  }

  class RootScanner {
    const w: World
    const ranges: map<nat, Ranges>
    const modules: seq<nat>
    var weakRefStack: seq<nat>

    constructor (w: World, ranges: map<nat, Ranges>, modules: seq<nat>)
      ensures this.w == w && this.ranges == ranges && this.modules == modules
      ensures weakRefStack == w.leftover
    {
      this.w, this.ranges, this.modules, weakRefStack := w, ranges, modules, w.leftover;
    }

    ghost predicate Ready(rc: RootsClosure, rank: map<nat, nat>)
      reads rc, rc.buffer, rc.factory
    {
      rc.Valid() && Ranked(w, rank) && HeadersReadable(w)
    }

    ghost function L(rc: RootsClosure): Log
      reads this, rc
    {
      Log(rc.history, weakRefStack)
    }

    method MarkObject(o: nat, rc: RootsClosure, ghost rank: map<nat, nat>)
      requires Ready(rc, rank) && o in rank
      modifies this, rc, rc.buffer, rc.factory
      ensures rc.Valid() && (rc.buffer == old(rc.buffer) || fresh(rc.buffer))
      ensures L(rc) == Extend(w, old(L(rc)), LockClosure(w, rank, o))
      decreases rank[o] + 1, 1
    {
      hide RootsClosure.Valid;
      hide Extend;
      ghost var log := L(rc);
      MarkLockWords(o, rc, rank);
      MarkedLast(w, rank, log, o, L(rc));
      HeaderOf(w, o);
      if IsWeakRefId(w.cfg, w.classes[w.mem0[o]].id) {
        weakRefStack := weakRefStack + [o];
      }
      rc.DoWork(o);
    }

    method MarkLockWords(o: nat, rc: RootsClosure, ghost rank: map<nat, nat>)
      requires Ready(rc, rank) && o in rank
      modifies this, rc, rc.buffer, rc.factory
      ensures rc.Valid() && (rc.buffer == old(rc.buffer) || fresh(rc.buffer))
      ensures AboveMonitors(w, rank, o)
      ensures L(rc) == Extend(w, old(L(rc)), ClosureOf(w, rank, Monitors(w, o), rank[o]))
      decreases rank[o] + 1, 0
    {
      HeaderOf(w, o);
      ghost var log := L(rc);
      if o != 0 {
        var rttiLock := w.locks0[w.mem0[o]];
        MarkMonitor(rttiLock, rc, o, rank);
        var objectLock := w.mem0[o + 8];
        MarkMonitor(objectLock, rc, o, rank);
        ClosureOfMonitors(w, rank, o);
        ExtendTwice(w, log, MonitorClosure(w, rank, rttiLock), MonitorClosure(w, rank, objectLock));
      }
    }

    /** The block mmtk_mark_lock_words runs for each of the two words. */
    method MarkMonitor(lock: nat, rc: RootsClosure, ghost o: nat, ghost rank: map<nat, nat>)
      requires Ready(rc, rank) && o in rank && (lock == w.Lock0(w.Old(o, 0)) || lock == w.Old(o, 1))
      modifies this, rc, rc.buffer, rc.factory
      ensures rc.Valid() && (rc.buffer == old(rc.buffer) || fresh(rc.buffer))
      ensures L(rc) == Extend(w, old(L(rc)), MonitorClosure(w, rank, lock))
      decreases rank[o], 3
    {
      ExtendByNothing(w, L(rc));
      MonitorRank(w, rank, o, lock);
      if FieldIsInflatedLock(lock) {
        MarkField(FieldAlignedLockRef(lock), rc, rank);
      }
    }

    method MarkField(field: nat, rc: RootsClosure, ghost rank: map<nat, nat>)
      requires Ready(rc, rank) && Covered(w, rank, field)
      modifies this, rc, rc.buffer, rc.factory
      ensures rc.Valid() && (rc.buffer == old(rc.buffer) || fresh(rc.buffer))
      ensures L(rc) == Extend(w, old(L(rc)), FieldClosure(w, rank, field))
      decreases if ValidField(w, field) && field in rank then rank[field] + 1 else 0, 2
    {
      ExtendByNothing(w, L(rc));
      if IsWordInHeap(w.cfg, field) {
        if field in w.objects {
          MarkObject(field, rc, rank);
        }
      }
    }

    method MarkConservative(address: nat, rc: RootsClosure, ghost rank: map<nat, nat>)
      requires Ready(rc, rank) && Covered(w, rank, address) && address < TWO_64
      requires IsWordInHeap(w.cfg, address) && IsPtrAligned(w.cfg, address)
      modifies this, rc, rc.buffer, rc.factory
      ensures rc.Valid() && (rc.buffer == old(rc.buffer) || fresh(rc.buffer))
      ensures L(rc) == Extend(w, old(L(rc)), WordClosure(w, rank, address))
    {
      ExtendByNothing(w, L(rc));
      IsPtrAlignedExactly(w.cfg, address);
      var candidate := AlignPtr(w.cfg, address);
      assert candidate == address; // the exact scanned word
      assert 0 in w.objects ==> HeaderReadable(w, 0);
      if candidate != 0 {
        if candidate in w.objects {
          MarkObject(candidate, rc, rank);
        }
      }
    }

    /** The body of the range loop. */
    method MarkWord(addr: nat, rc: RootsClosure, ghost rank: map<nat, nat>)
      requires Ready(rc, rank) && WordCovered(w, rank, addr) && addr < TWO_64
      modifies this, rc, rc.buffer, rc.factory
      ensures rc.Valid() && (rc.buffer == old(rc.buffer) || fresh(rc.buffer))
      ensures L(rc) == Extend(w, old(L(rc)), WordClosure(w, rank, addr))
    {
      ExtendByNothing(w, L(rc));
      IsPtrAlignedExactly(w.cfg, addr);
      if IsWordInHeap(w.cfg, addr) && IsPtrAligned(w.cfg, addr) {
        MarkConservative(addr, rc, rank);
      }
    }

    /** Scans both ends of the range. */
    method MarkRange(start: int, end: int, rc: RootsClosure, ghost rank: map<nat, nat>)
      requires Ready(rc, rank) && RangeReadable(w, start, end) && RangeCovered(w, rank, start, end)
      modifies this, rc, rc.buffer, rc.factory
      ensures rc.Valid() && (rc.buffer == old(rc.buffer) || fresh(rc.buffer))
      ensures L(rc) == Extend(w, old(L(rc)), RangeClosure(w, rank, start, end))
    {
      hide RootsClosure.Valid;
      ghost var log := L(rc);
      ghost var done := [];
      ExtendByNothing(w, log);
      var current := start;
      ghost var n := 0;
      while current <= end
        invariant rc.Valid() && (rc.buffer == old(rc.buffer) || fresh(rc.buffer))
        invariant 0 <= n && current == start + 8 * n
        invariant L(rc) == Extend(w, log, done)
        invariant done + RangeClosure(w, rank, current, end) == RangeClosure(w, rank, start, end)
        decreases end - current
      {
        assert Readable(w.mem0, start, n) && CoveredAt(w, rank, start, n);
        var addr := w.mem0[current];
        RangeStep(w, rank, log, done, current, end);
        MarkWord(addr, rc, rank);
        done := done + WordClosure(w, rank, addr);
        current, n := current + 8, n + 1;
      }
      assert done + [] == done;
    }

    method MarkProgramStack(tls: nat, rc: RootsClosure, ghost rank: map<nat, nat>)
      requires Ready(rc, rank) && tls in ranges && ThreadReadable(w, ranges[tls])
      requires ThreadCovered(w, rank, ranges[tls])
      modifies this, rc, rc.buffer, rc.factory
      ensures rc.Valid() && (rc.buffer == old(rc.buffer) || fresh(rc.buffer))
      ensures L(rc) == Extend(w, old(L(rc)), ThreadClosure(w, rank, ranges[tls]))
    {
      hide RootsClosure.Valid;
      ghost var log := L(rc);
      var r := ranges[tls];
      ghost var stack := RangeClosure(w, rank, r.stackTop, r.stackBottom);
      ghost var regs := RangeClosure(w, rank, r.regs, r.regs + 8 * r.regsSize);
      assert ThreadClosure(w, rank, r) == stack + regs;
      ExtendTwice(w, log, stack, regs);
      MarkRange(r.stackTop, r.stackBottom, rc, rank);
      MarkRange(r.regs, r.regs + 8 * r.regsSize, rc, rank);
    }

    method MarkModules(rc: RootsClosure, ghost rank: map<nat, nat>)
      requires Ready(rc, rank) && ModulesCovered(w, rank, modules)
      modifies this, rc, rc.buffer, rc.factory
      ensures rc.Valid() && (rc.buffer == old(rc.buffer) || fresh(rc.buffer))
      ensures L(rc) == Extend(w, old(L(rc)), ModulesClosure(w, rank, modules))
    {
      ghost var log := L(rc);
      ExtendByNothing(w, log);
      for i := 0 to |modules|
        invariant rc.Valid() && (rc.buffer == old(rc.buffer) || fresh(rc.buffer))
        invariant L(rc) == Extend(w, log, ModulesClosure(w, rank, modules[..i]))
      {
        assert modules[..i + 1][..i] == modules[..i];
        ExtendTwice(w, log, ModulesClosure(w, rank, modules[..i]), FieldClosure(w, rank, modules[i]));
        MarkField(modules[i], rc, rank);
      }
      assert modules[..|modules|] == modules;
    }

    ghost predicate ThreadsReady(head: MutatorThreadNode?, spine: seq<MutatorThreadNode>, rank: map<nat, nat>)
      reads spine
    {
      && ListOf(head, spine) && Ranked(w, rank) && HeadersReadable(w)
      && (forall n :: n in spine ==>
           n.value in ranges && ThreadReadable(w, ranges[n.value]) && ThreadCovered(w, rank, ranges[n.value]))
    }

    lemma ThreadStep(spine: seq<MutatorThreadNode>, i: nat, rank: map<nat, nat>, log: Log)
      requires i < |spine| && Ranked(w, rank) && forall n :: n in spine ==> n.value in ranges
      ensures Extend(w, Extend(w, log, ThreadsClosure(w, rank, RangesOf(ranges, spine[..i]))),
                     ThreadClosure(w, rank, ranges[spine[i].value])) ==
              Extend(w, log, ThreadsClosure(w, rank, RangesOf(ranges, spine[..i + 1])))
    {
      var front := RangesOf(ranges, spine[..i]);
      assert spine[..i + 1][..i] == spine[..i];
      assert RangesOf(ranges, spine[..i + 1]) == front + [ranges[spine[i].value]];
      assert (front + [ranges[spine[i].value]])[..|front|] == front;
      ExtendTwice(w, log, ThreadsClosure(w, rank, front), ThreadClosure(w, rank, ranges[spine[i].value]));
    }

    /** The walk down the list of mutator threads. */
    method MarkThreads(head: MutatorThreadNode?, rc: RootsClosure,
                       ghost spine: seq<MutatorThreadNode>, ghost rank: map<nat, nat>)
      requires Ready(rc, rank) && ThreadsReady(head, spine, rank)
      modifies this, rc, rc.buffer, rc.factory
      ensures rc.Valid() && (rc.buffer == old(rc.buffer) || fresh(rc.buffer))
      ensures L(rc) == Extend(w, old(L(rc)), ThreadsClosure(w, rank, RangesOf(ranges, spine)))
    {
      hide RootsClosure.Valid;
      ghost var log := L(rc);
      var node := head;
      ghost var i := 0;
      ExtendByNothing(w, log);
      while node != null
        invariant i <= |spine| && node == NodeAt(spine, i)
        invariant rc.Valid() && (rc.buffer == old(rc.buffer) || fresh(rc.buffer))
        invariant L(rc) == Extend(w, log, ThreadsClosure(w, rank, RangesOf(ranges, spine[..i])))
        decreases |spine| - i
      {
        MarkThread(node, rc, spine, i, rank, log);
        node := node.next;
        i := i + 1;
      }
      assert spine[..i] == spine;
    }

    method MarkThread(node: MutatorThreadNode, rc: RootsClosure, ghost spine: seq<MutatorThreadNode>, ghost i: nat,
                      ghost rank: map<nat, nat>, ghost log: Log)
      requires Ready(rc, rank) && i < |spine| && node == spine[i]
      requires forall n :: n in spine ==> n.value in ranges
      requires ThreadReadable(w, ranges[node.value]) && ThreadCovered(w, rank, ranges[node.value])
      requires L(rc) == Extend(w, log, ThreadsClosure(w, rank, RangesOf(ranges, spine[..i])))
      modifies this, rc, rc.buffer, rc.factory
      ensures rc.Valid() && (rc.buffer == old(rc.buffer) || fresh(rc.buffer))
      ensures L(rc) == Extend(w, log, ThreadsClosure(w, rank, RangesOf(ranges, spine[..i + 1])))
    {
      ThreadStep(spine, i, rank, log);
      MarkProgramStack(node.value, rc, rank);
    }

    /** scan_roots_in_mutator_thread: one thread, with a reporter of its own. */
    method ScanRootsInMutatorThread(tls: nat, factory: RootsWorkFactory, ghost rank: map<nat, nat>)
      requires factory.AllReturned() && Ranked(w, rank) && HeadersReadable(w)
      requires tls in ranges && ThreadReadable(w, ranges[tls]) && ThreadCovered(w, rank, ranges[tls])
      modifies this, factory
      ensures factory.AllReturned() && old(factory.packets) <= factory.packets
      ensures Log(Flatten(factory.packets[|old(factory.packets)|..]), weakRefStack) ==
              Extend(w, Log([], old(weakRefStack)), ThreadClosure(w, rank, ranges[tls]))
      ensures WellPacked(factory.packets[|old(factory.packets)|..], factory.capacityOf, |old(factory.issued)|)
    {
      var rc := new RootsClosure(factory);
      MarkProgramStack(tls, rc, rank);
      rc.Drop();
    }

    /** All threads with one reporter, which is dropped at the end. */
    method ScanRootsInAllMutatorThreads(head: MutatorThreadNode?, factory: RootsWorkFactory,
                                        ghost spine: seq<MutatorThreadNode>, ghost rank: map<nat, nat>)
      requires factory.AllReturned() && ThreadsReady(head, spine, rank) && ModulesCovered(w, rank, modules)
      modifies this, factory
      ensures factory.AllReturned() && old(factory.packets) <= factory.packets
      ensures Log(Flatten(factory.packets[|old(factory.packets)|..]), weakRefStack) ==
              Extend(w, Log([], old(weakRefStack)), ThreadsClosure(w, rank, RangesOf(ranges, spine)))
      ensures WellPacked(factory.packets[|old(factory.packets)|..], factory.capacityOf, |old(factory.issued)|)
    {
      var rc := new RootsClosure(factory);
      MarkThreads(head, rc, spine, rank);
      rc.Drop();
    }

    /** The second half of scan_vm_specific_roots: the modules, with a reporter of their own. */
    method ScanRootsInModules(factory: RootsWorkFactory, ghost rank: map<nat, nat>)
      requires factory.AllReturned() && Ranked(w, rank) && HeadersReadable(w) && ModulesCovered(w, rank, modules)
      modifies this, factory
      ensures factory.AllReturned() && old(factory.packets) <= factory.packets
      ensures Log(Flatten(factory.packets[|old(factory.packets)|..]), weakRefStack) ==
              Extend(w, Log([], old(weakRefStack)), ModulesClosure(w, rank, modules))
      ensures WellPacked(factory.packets[|old(factory.packets)|..], factory.capacityOf, |old(factory.issued)|)
    {
      var rc := new RootsClosure(factory);
      MarkModules(rc, rank);
      rc.Drop();
    }

    /**
     * scan_vm_specific_roots: one reporter for the threads, another for the modules. The
     * packets, put together, are the roots, in order; nothing is lost at a flush, at a
     * drop, or between the two reporters, and every buffer has been given back. The packets
     * of each reporter, the first `threadPackets` and the rest, are well filled.
     */
    method ScanVmSpecificRoots(head: MutatorThreadNode?, factory: RootsWorkFactory,
                               ghost spine: seq<MutatorThreadNode>, ghost rank: map<nat, nat>)
      returns (ghost threadPackets: nat, ghost moduleBuffer: nat)
      requires factory.AllReturned() && ThreadsReady(head, spine, rank) && ModulesCovered(w, rank, modules)
      modifies this, factory
      ensures factory.AllReturned() && old(factory.packets) <= factory.packets
      ensures var roots := VmRoots(w, rank, RangesOf(ranges, spine), modules);
              && Flatten(factory.packets[|old(factory.packets)|..]) == roots
              && weakRefStack == old(weakRefStack) + WeakOf(w, roots)
      ensures var packets := factory.packets[|old(factory.packets)|..];
              && threadPackets <= |packets|
              && WellPacked(packets[..threadPackets], factory.capacityOf, |old(factory.issued)|)
              && WellPacked(packets[threadPackets..], factory.capacityOf, moduleBuffer)
    {
      hide WeakOf;
      hide Flatten;
      hide ThreadsClosure;
      hide ModulesClosure;
      ghost var p0, weak0 := factory.packets, weakRefStack;
      ScanRootsInAllMutatorThreads(head, factory, spine, rank);
      ghost var p1 := factory.packets;
      threadPackets, moduleBuffer := |p1| - |p0|, |factory.issued|;
      ScanRootsInModules(factory, rank);
      assert factory.packets[|p0|..][..threadPackets] == p1[|p0|..];
      assert factory.packets[|p0|..][threadPackets..] == factory.packets[|p1|..];
      TwoReporters(w, p0, p1, factory.packets, weak0,
                   ThreadsClosure(w, rank, RangesOf(ranges, spine)), ModulesClosure(w, rank, modules));
    }
  }

  /** The two header words of a valid object, read the way the code reads them. */
  lemma HeaderOf(w: World, o: nat)
    requires HeadersReadable(w) && o in w.objects
    ensures 0 < o && o in w.mem0 && o + 8 in w.mem0 && w.mem0[o] in w.classes && w.mem0[o] in w.locks0
    ensures w.mem0[o] == w.Old(o, 0) && w.mem0[o + 8] == w.Old(o, 1)
    ensures w.locks0[w.mem0[o]] == w.Lock0(w.Old(o, 0))
  {
    assert HeaderReadable(w, o);
  }
}
