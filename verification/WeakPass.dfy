// The loop over the weak references again, this time with the collector as its tracer: what
// it would do to the heap a collection leaves behind.
module WeakPass {
  import opened Abi
  import opened Heap
  import opened ObjectModel
  import opened Tracing
  import opened Invariant
  import opened Collection
  import opened ObjectScanning

  /** The referent of a weak reference at `a`. */
  function ReferentOf(w: World, mem: Memory, a: nat): nat
  {
    Word(mem, a, 2 + w.cfg.weakRefFieldOffset)
  }

  /** Weak references have their referent inside, and it is null or a valid object. */
  ghost predicate ReferentsOk(w: World)
  {
    0 < w.cfg.heapStart && forall v {:trigger ReferentOk(w, v)} :: v in w.objects && w.IsWeak(v) ==> ReferentOk(w, v)
  }

  ghost predicate ReferentOk(w: World, v: nat)
  {
    var r := ReferentOf(w, w.mem0, v);
    && 0 <= w.cfg.weakRefFieldOffset && 2 + w.cfg.weakRefFieldOffset < w.Words(v)
    && !IsArrayId(w.cfg, w.Class(v).id) && (r == 0 || r in w.objects)
  }

  /** The address of a weak reference that is still there, or of the copy of one that has been traced. */
  ghost predicate EntryFor(w: World, traced: set<nat>, a: nat, v: nat)
  {
    v in w.objects && w.IsWeak(v) && (a == v || (a == w.Dest(v) && v in traced))
  }

  ghost predicate EntryOk(w: World, traced: set<nat>, a: nat)
  {
    exists v :: EntryFor(w, traced, a, v)
  }

  /** What a collection has pushed are entries of this kind; of what was left there it has to be asked. */
  lemma FinishedStackOk(w: World, s: State)
    requires Finished(w, s) && forall a :: a in w.leftover ==> EntryOk(w, s.traced, a)
    ensures Objects(w, s.mem, s.traced) && forall a :: a in s.weak ==> EntryOk(w, s.traced, a)
  {
    forall a | a in s.weak
      ensures EntryOk(w, s.traced, a)
    {
      assert WeakOk(w, s.traced, a);
      if a !in w.leftover {
        var o :| o in s.traced && w.Dest(o) == a && w.IsWeak(o);
        assert EntryFor(w, s.traced, a, o);
      }
    }
  }

  // ---------- what the pass traces ----------

  /** The references given to the tracer: each entry, in the order they are popped, and its referent. */
  function Popped(w: World, mem: Memory, stack: seq<nat>): seq<nat>
  {
    if stack == [] then []
    else
      var last := stack[|stack| - 1];
      [last, ReferentOf(w, mem, last)] + Popped(w, mem, stack[..|stack| - 1])
  }

  lemma PoppedLast(w: World, mem: Memory, done: seq<nat>, stack: seq<nat>)
    ensures done + Popped(w, mem, []) == done
    ensures stack != [] ==>
              var last := stack[|stack| - 1];
              done + Popped(w, mem, stack) ==
              done + [last, ReferentOf(w, mem, last)] + Popped(w, mem, stack[..|stack| - 1])
  {
  }

  /** An entry of the stack, or the referent of one. */
  ghost predicate OnStack(w: World, mem: Memory, stack: seq<nat>, x: nat)
  {
    exists a :: a in stack && (x == a || x == ReferentOf(w, mem, a))
  }

  lemma OnStackSplit(w: World, mem: Memory, front: seq<nat>, last: nat, x: nat)
    ensures OnStack(w, mem, front + [last], x) <==>
            OnStack(w, mem, front, x) || x == last || x == ReferentOf(w, mem, last)
  {
    assert last in front + [last];
    if OnStack(w, mem, front, x) {
      var a :| a in front && (x == a || x == ReferentOf(w, mem, a));
      assert a in front + [last];
    }
  }

  lemma {:induction false} PoppedExactly(w: World, mem: Memory, stack: seq<nat>, x: nat)
    ensures x in Popped(w, mem, stack) <==> OnStack(w, mem, stack, x)
  {
    if stack != [] {
      var front, last := stack[..|stack| - 1], stack[|stack| - 1];
      PoppedExactly(w, mem, front, x);
      OnStackSplit(w, mem, front, last, x);
      assert stack == front + [last];
    }
  }

  /** Every word of what was traced before is still what it was. */
  ghost predicate SameWords(w: World, before: State, after: State)
  {
    forall p, k :: p in before.traced && 0 <= k < w.Words(p) ==>
      Word(after.mem, w.Dest(p), k) == Word(before.mem, w.Dest(p), k)
  }

  /** x has been traced, or it is one of these references and a valid object. */
  ghost predicate Reached(w: World, before: State, refs: seq<nat>, x: nat)
  {
    x in before.traced || (x in refs && x in w.objects)
  }

  lemma {:induction false} TracingRefs(w: World, s: State, refs: seq<nat>)
    requires w.WellFormed() && Objects(w, s.mem, s.traced)
    ensures var s' := TraceRoots(w, s, refs);
            && Objects(w, s'.mem, s'.traced) && SameWords(w, s, s')
            && s'.locks == s.locks && s'.weak == s.weak
            && (forall x :: x in s'.traced <==> Reached(w, s, refs, x))
  {
    if refs != [] {
      var front, last := refs[..|refs| - 1], refs[|refs| - 1];
      TracingRefs(w, s, front);
      var s1 := TraceRoots(w, s, front);
      TraceKeepsObjects(w, s1, last);
      assert refs == front + [last];
    }
  }

  /** What gets enqueued is what gets traced. */
  lemma {:induction false} QueuedRefs(w: World, s: State, refs: seq<nat>)
    requires w.WellFormed() && Objects(w, s.mem, s.traced) && s.queue == []
    ensures var s' := TraceRoots(w, s, refs);
            forall a :: a in s'.queue <==> exists r :: r in s'.traced && r !in s.traced && w.Dest(r) == a
  {
    if refs != [] {
      var front, last := refs[..|refs| - 1], refs[|refs| - 1];
      QueuedRefs(w, s, front);
      TracingRefs(w, s, front);
      QueuedOne(w, s, TraceRoots(w, s, front), last);
    }
  }

  lemma QueuedOne(w: World, s: State, s1: State, last: nat)
    requires s.traced <= s1.traced
    requires forall a :: a in s1.queue <==> exists r :: r in s1.traced && r !in s.traced && w.Dest(r) == a
    ensures var s' := Trace(w, s1, last);
            forall a :: a in s'.queue <==> exists r :: r in s'.traced && r !in s.traced && w.Dest(r) == a
  {
    var s' := Trace(w, s1, last);
    if last in w.objects && last !in s1.traced {
      forall a
        ensures a in s'.queue <==> exists r :: r in s'.traced && r !in s.traced && w.Dest(r) == a
      {
        if a in s1.queue {
          var r :| r in s1.traced && r !in s.traced && w.Dest(r) == a;
          assert r in s'.traced;
        }
        if a == w.Dest(last) {
          assert last in s'.traced;
        }
      }
    }
  }

  // ---------- the pass ----------

  /** A valid object that only the stack leads to: not traced when the pass begins. */
  ghost predicate OnlyWeak(w: World, s: State, x: nat)
  {
    x in w.objects && x !in s.traced && OnStack(w, s.mem, s.weak, x)
  }

  /**
   * What the pass does to a finished collection: no word of a retained object changes, so no
   * referent is cleared and none is updated; every object that only the stack leads to is
   * evacuated and left queued; and where it moved, its old address has a forwarding word.
   */
  ghost predicate PassOutcome(w: World, s: State, s': State)
  {
    && s'.weak == [] && s'.locks == s.locks && SameWords(w, s, s') && Objects(w, s'.mem, s'.traced)
    && (forall x :: x in s'.traced <==> x in s.traced || OnlyWeak(w, s, x))
    && (forall a :: a in s'.queue <==> exists r :: OnlyWeak(w, s, r) && w.Dest(r) == a)
    && (forall r: nat :: OnlyWeak(w, s, r) && w.Moves(r) ==> Word(s'.mem, r, 0) == w.Dest(r) + FORWARDED)
  }

  lemma PassOutcomeOf(w: World, s: State, s': State)
    requires w.WellFormed() && Finished(w, s)
    requires s'.weak == [] && s' == TraceRoots(w, s.(weak := []), Popped(w, s.mem, s.weak)).(weak := [])
    ensures PassOutcome(w, s, s')
  {
    var refs, s0 := Popped(w, s.mem, s.weak), s.(weak := []);
    TracingRefs(w, s0, refs);
    QueuedRefs(w, s0, refs);
    forall x
      ensures x in s'.traced && x !in s.traced <==> OnlyWeak(w, s, x)
    {
      PoppedExactly(w, s.mem, s.weak, x);
      assert x in s'.traced <==> Reached(w, s0, refs, x);
    }
    forall r: nat | OnlyWeak(w, s, r) && w.Moves(r)
      ensures Word(s'.mem, r, 0) == w.Dest(r) + FORWARDED
    {
      assert r in s'.traced;
      assert Condemned(w, s'.mem, r);
    }
  }

  /** Nothing stores to the referent slot, so through every such entry it reads as when the collection started. */
  lemma EntryReferent(w: World, mem: Memory, traced: set<nat>, a: nat, v: nat)
    requires w.WellFormed() && Objects(w, mem, traced) && ReferentsOk(w) && EntryFor(w, traced, a, v)
    ensures ReferentOf(w, mem, a) == ReferentOf(w, w.mem0, v) && ReferentOk(w, v)
  {
    var k := 2 + w.cfg.weakRefFieldOffset;
    assert ReferentOk(w, v);
    if v !in traced {
      assert Intact(w, mem, v);
    } else if a == w.Dest(v) {
      FieldSlotsExactly(w.cfg, w.Class(v), MapLength(w.Class(v).refMap), k);
      assert Held(w, mem, traced, v) && WordOk(w, mem, traced, v, k);
    } else {
      assert Condemned(w, mem, v);
    }
  }

  /** Tracing an entry gives the place its referent is read from. */
  lemma EntryTraced(w: World, s: State, a: nat, v: nat)
    requires w.WellFormed() && Objects(w, s.mem, s.traced) && EntryFor(w, s.traced, a, v)
    ensures IsMmtkObject(w, s, a) && Forward(w, a) == w.Dest(v)
    ensures var s' := Trace(w, s, a); Objects(w, s'.mem, s'.traced) && v in s'.traced
  {
    CopyIsNoObject(w, v);
    TraceKeepsObjects(w, s, a);
  }

  lemma ReferentReadable(w: World, s: State, v: nat)
    requires w.WellFormed() && Objects(w, s.mem, s.traced) && ReferentsOk(w) && v in s.traced && w.IsWeak(v)
    ensures var edge := w.Dest(v) + 16 + 8 * w.cfg.weakRefFieldOffset;
            edge in s.mem && s.mem[edge] == ReferentOf(w, w.mem0, v)
  {
    EntryReferent(w, s.mem, s.traced, w.Dest(v), v);
    assert w.DestOk(v) && Readable(w.mem0, w.Dest(v), 2 + w.cfg.weakRefFieldOffset);
  }

  /** What the code of one round relies on, and the states it passes through. */
  lemma PassStages(w: World, s: State, now: State, done: seq<nat>, a: nat) returns (r: nat, mid: State, next: State)
    requires w.WellFormed() && Objects(w, s.mem, s.traced) && ReferentsOk(w) && EntryOk(w, s.traced, a)
    requires now == TraceRoots(w, s.(weak := []), done).(weak := now.weak)
    ensures Objects(w, now.mem, now.traced) && IsMmtkObject(w, now, a) && mid == Trace(w, now, a)
    ensures Objects(w, mid.mem, mid.traced) && mid.weak == now.weak
    ensures r == ReferentOf(w, s.mem, a) && (IsMmtkObject(w, mid, r) || r == 0)
    ensures var edge := Forward(w, a) + 16 + 8 * w.cfg.weakRefFieldOffset; edge in mid.mem && mid.mem[edge] == r
    ensures next == Trace(w, mid, r) && next.mem.Keys == mid.mem.Keys && next.weak == now.weak
    ensures next == TraceRoots(w, s.(weak := []), done + [a, r]).(weak := next.weak)
    ensures IsWordInHeap(w.cfg, r) ==> IsImage(w, next.traced, Forward(w, r))
  {
    var s0 := s.(weak := []);
    var v :| EntryFor(w, s.traced, a, v);
    TracingRefs(w, s0, done);
    EntryReferent(w, s.mem, s.traced, a, v);
    EntryTraced(w, now, a, v);
    mid := Trace(w, now, a);
    ReferentReadable(w, mid, v);
    r := ReferentOf(w, s.mem, a);
    next := Trace(w, mid, r);
    TraceKeepsObjects(w, mid, r);
    TraceRootsSnoc(w, s0, done, a);
    TraceRootsSnoc(w, s0, done + [a], r);
    assert done + [a] + [r] == done + [a, r];
    if r != 0 {
      assert r in next.traced;
    }
  }

  /**
   * mmtk_weak_ref_stack_nullify on a finished collection, with that collection's tracer. Of
   * what was left on the stack it asks what the tracer does: that it is still there.
   */
  method NullifyWithCollector(c: Collector) returns (visited: bool)
    requires c.w.WellFormed() && Finished(c.w, c.S()) && ReferentsOk(c.w)
    requires forall a :: a in c.w.leftover ==> EntryOk(c.w, c.traced, a)
    modifies c
    ensures !visited
    ensures PassOutcome(c.w, old(c.S()), c.S())
  {
    hide World.WellFormed;
    hide Finished;
    hide Objects;
    hide ReferentsOk;
    hide EntryOk;
    hide TraceRoots;
    hide Popped;
    hide PassOutcome;
    var w := c.w;
    ghost var s := c.S();
    ghost var s0, done := s.(weak := []), [];
    NothingTraced(w, s0);
    FinishedStackOk(w, s);
    visited := false;
    while c.weakRefStack != []
      invariant !visited && c.weakRefStack <= s.weak
      invariant done + Popped(w, s.mem, c.weakRefStack) == Popped(w, s.mem, s.weak)
      invariant c.S() == TraceRoots(w, s0, done).(weak := c.weakRefStack)
      decreases |c.weakRefStack|
    {
      PoppedLast(w, s.mem, done, c.weakRefStack);
      var entry := c.weakRefStack[|c.weakRefStack| - 1];
      assert entry in s.weak;
      c.weakRefStack := c.weakRefStack[..|c.weakRefStack| - 1];
      var dead := NullifyEntry(c, entry, s, done);
      visited := visited || dead;
      done := done + [entry, ReferentOf(w, s.mem, entry)];
    }
    PoppedLast(w, s.mem, done, []);
    PassOutcomeOf(w, s, c.S());
  }

  /** The body of the loop; it says whether it cleared the referent. */
  method NullifyEntry(c: Collector, entry: nat, ghost s: State, ghost done: seq<nat>) returns (cleared: bool)
    requires c.w.WellFormed() && Objects(c.w, s.mem, s.traced) && ReferentsOk(c.w) && EntryOk(c.w, s.traced, entry)
    requires c.S() == TraceRoots(c.w, s.(weak := []), done).(weak := c.weakRefStack)
    modifies c
    ensures !cleared && c.weakRefStack == old(c.weakRefStack)
    ensures var refs := done + [entry, ReferentOf(c.w, s.mem, entry)];
            c.S() == TraceRoots(c.w, s.(weak := []), refs).(weak := c.weakRefStack)
  {
    hide World.WellFormed;
    hide Objects;
    hide Trace;
    hide TraceRoots;
    hide ReferentsOk;
    hide EntryOk;
    hide IsMmtkObject;
    hide IsImage;
    var w := c.w;
    ghost var r, mid, next := PassStages(w, s, c.S(), done, entry);
    var tracedRef := c.TraceObject(entry);
    assert c.S() == mid;
    var edge := tracedRef + 16 + 8 * w.cfg.weakRefFieldOffset;
    var referent := c.mem[edge];
    var tracedReferent := c.TraceObject(referent);
    assert c.S() == next;
    cleared := ClearIfDead(c, edge, referent, tracedReferent);
  }

  lemma NothingTraced(w: World, s: State)
    ensures TraceRoots(w, s, []) == s
  {
  }

  /** The end of the loop body: clears a referent in the heap range that tracing did not make reachable. */
  method ClearIfDead(c: Collector, edge: int, referent: nat, tracedReferent: nat) returns (cleared: bool)
    requires edge in c.mem
    modifies c`mem
    ensures cleared <==>
            c.w.cfg.heapStart <= referent < c.w.cfg.heapEnd && !IsImage(c.w, c.traced, tracedReferent)
    ensures c.mem == if cleared then old(c.mem)[edge := 0] else old(c.mem)
  {
    cleared := false;
    if IsWordInHeap(c.w.cfg, referent) {
      if !IsImage(c.w, c.traced, tracedReferent) {
        c.mem := c.mem[edge := 0];
        cleared := true;
      }
    }
  }
}
