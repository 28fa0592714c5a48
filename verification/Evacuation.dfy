// Whole traces: from the pinned roots, in any order, to an empty queue.
module Evacuation {
  import opened Abi
  import opened Heap
  import opened Tracing
  import opened Invariant
  import opened ScanSteps

  // ---------- one node ----------

  lemma {:induction false} ScanSlotsKeepsInv(w: World, s: State, o: nat, slots: seq<int>)
    requires w.WellFormed() && Inv(w, s) && o in s.traced
    requires forall k :: k in slots ==> k in w.Slots(o)
    ensures var s' := ScanSlots(w, s, w.Dest(o), slots);
            && Inv(w, s') && s.traced <= s'.traced && s.queue <= s'.queue && s.weak <= s'.weak
            && (forall k :: k in slots ==> Done(w, s', o, k))
            && (forall p, j :: p in s.traced && j in w.Slots(p) && Done(w, s, p, j) ==> Done(w, s', p, j))
  {
    if slots != [] {
      var before, k := slots[..|slots| - 1], slots[|slots| - 1];
      ScanSlotsKeepsInv(w, s, o, before);
      ScanSlotKeepsInv(w, ScanSlots(w, s, w.Dest(o), before), o, k);
    }
  }

  lemma ScanSlotsSnoc(w: World, s: State, a: nat, before: seq<int>, k: int)
    ensures ScanSlots(w, s, a, before + [k]) == ScanSlot(w, ScanSlots(w, s, a, before), a, k)
  {
    assert (before + [k])[..|before|] == before;
  }

  /** One round of a slot loop: what it reads is mapped, and it extends the scanned prefix by one slot. */
  lemma SlotLoopStep(w: World, s0: State, s: State, o: nat, before: seq<int>, k: int, after: seq<int>)
    returns (next: State)
    requires w.WellFormed() && Inv(w, s) && o in s.traced && k in w.Slots(o)
    requires s == ScanSlots(w, s0, w.Dest(o), before) && after == before + [k]
    ensures next == ScanSlot(w, s, w.Dest(o), k)
    ensures Inv(w, next) && o in next.traced && next == ScanSlots(w, s0, w.Dest(o), after)
    ensures w.Dest(o) + 8 * k in s.mem
    ensures s.mem[w.Dest(o) + 8 * k] == Word(s.mem, w.Dest(o), k)
  {
    ScanSlotsSnoc(w, s0, w.Dest(o), before, k);
    ScanSlotKeepsInv(w, s, o, k);
    SlotReadable(w, s, o, k);
    next := ScanSlot(w, s, w.Dest(o), k);
  }

  lemma NothingScanned(w: World, s: State, a: nat, c: Rtti)
    ensures ScanSlots(w, s, a, FieldSlots(w.cfg, c, 0)) == s
  {
  }

  /** What the two loops read before they start. */
  lemma MapReadable(w: World, s: State, o: nat)
    requires w.WellFormed() && Inv(w, s) && o in s.traced && !IsArrayId(w.cfg, w.Class(o).id)
    ensures w.Dest(o) in s.mem && s.mem[w.Dest(o)] in w.classes && w.classes[s.mem[w.Dest(o)]] == w.Class(o)
    ensures LAST_FIELD_OFFSET in w.Class(o).refMap
    ensures w.SlotsOf(s.mem, w.Dest(o)) == w.Slots(o) == FieldSlots(w.cfg, w.Class(o), MapLength(w.Class(o).refMap))
  {
    HeaderReadable(w, s, o);
    HeaderOfImage(w, s, o);
    assert w.ClassOk(w.Old(o, 0));
  }

  /** One entry of the reference map: skipped, or the next slot. */
  lemma EntryReadable(w: World, s: State, o: nat, i: nat)
    requires w.WellFormed() && Inv(w, s) && o in s.traced && !IsArrayId(w.cfg, w.Class(o).id)
    requires i < MapLength(w.Class(o).refMap)
    ensures w.Dest(o) in s.mem && s.mem[w.Dest(o)] in w.classes && w.classes[s.mem[w.Dest(o)]] == w.Class(o)
    ensures var c := w.Class(o);
            var done, next := FieldSlots(w.cfg, c, i), FieldSlots(w.cfg, c, i + 1);
            if IsReferentOfWeakReference(w.cfg, c.id, c.refMap[i]) then next == done
            else next == done + [2 + c.refMap[i]] && 2 + c.refMap[i] in w.Slots(o)
  {
    HeaderReadable(w, s, o);
    FieldSlotsStep(w.cfg, w.Class(o), i);
  }

  lemma ArrayReadable(w: World, s: State, o: nat)
    requires w.WellFormed() && Inv(w, s) && o in s.traced && IsArrayId(w.cfg, w.Class(o).id)
    ensures w.Dest(o) in s.mem && s.mem[w.Dest(o)] in w.classes && w.classes[s.mem[w.Dest(o)]] == w.Class(o)
    ensures w.Dest(o) + 16 in s.mem && s.mem[w.Dest(o) + 16] == w.Old(o, 2) && LengthOf(w.Old(o, 2)) >= 0
    ensures w.SlotsOf(s.mem, w.Dest(o)) == w.Slots(o)
    ensures w.Slots(o) == if w.Class(o).id == w.cfg.objectArrayId then ElementSlots(LengthOf(w.Old(o, 2))) else []
  {
    HeaderReadable(w, s, o);
    HeaderOfImage(w, s, o);
    LengthReadable(w, s, o);
  }

  /** Scanning a traced object keeps the invariant, undoes no finished slot, and leaves the object black. */
  lemma ScanNodeBlackens(w: World, s: State, o: nat)
    requires w.WellFormed() && Inv(w, s) && o in s.traced
    ensures var s' := ScanNode(w, s, w.Dest(o));
            && Inv(w, s') && Black(w, s', o)
            && s.traced <= s'.traced && s.queue <= s'.queue && s.weak <= s'.weak
            && (forall p :: p in s.traced && Black(w, s, p) ==> Black(w, s', p))
  {
    HeaderOfImage(w, s, o);
    ScanSlotsKeepsInv(w, s, o, w.Slots(o));
  }

  lemma {:induction false} ScanSlotsElsewhere(w: World, s: State, o: nat, slots: seq<int>, p: nat, j: int)
    requires w.WellFormed() && Inv(w, s) && o in s.traced && p in s.traced && p != o && 0 <= j < w.Words(p)
    requires forall k :: k in slots ==> k in w.Slots(o)
    ensures Word(ScanSlots(w, s, w.Dest(o), slots).mem, w.Dest(p), j) == Word(s.mem, w.Dest(p), j)
  {
    if slots != [] {
      var before := slots[..|slots| - 1];
      ScanSlotsElsewhere(w, s, o, before, p, j);
      ScanSlotsKeepsInv(w, s, o, before);
      ScanSlotElsewhere(w, ScanSlots(w, s, w.Dest(o), before), o, slots[|slots| - 1], p);
    }
  }

  /** Scanning a node writes to no other traced object. */
  lemma ScanNodeElsewhere(w: World, s: State, o: nat, p: nat, j: int)
    requires w.WellFormed() && Inv(w, s) && o in s.traced && p in s.traced && p != o && 0 <= j < w.Words(p)
    ensures Word(ScanNode(w, s, w.Dest(o)).mem, w.Dest(p), j) == Word(s.mem, w.Dest(p), j)
  {
    HeaderOfImage(w, s, o);
    ScanSlotsElsewhere(w, s, o, w.Slots(o), p, j);
  }

  // ---------- every traced object is enqueued once ----------

  /** The nodes scanned so far and the queue together list each forwarded object exactly once. */
  ghost predicate Enumerates(w: World, s: State, scanned: seq<nat>)
  {
    forall a :: (multiset(scanned) + multiset(s.queue))[a] == if IsImage(w, s.traced, a) then 1 else 0
  }

  lemma TraceEnumerates(w: World, s: State, a: nat, scanned: seq<nat>)
    requires w.WellFormed() && s.traced <= w.objects && Enumerates(w, s, scanned)
    ensures Enumerates(w, Trace(w, s, a), scanned) && Trace(w, s, a).traced <= w.objects
  {
    if a in w.objects && a !in s.traced {
      var s' := Trace(w, s, a);
      forall b
        ensures (multiset(scanned) + multiset(s'.queue))[b] == if IsImage(w, s'.traced, b) then 1 else 0
      {
        assert multiset(s'.queue) == multiset(s.queue) + multiset{w.Dest(a)};
        ImagesGrow(w, s.traced, a, b);
        if b == w.Dest(a) && IsImage(w, s.traced, b) {
          var o :| o in s.traced && w.Dest(o) == b;
          DestInjective(w, o, a);
        }
      }
    }
  }

  lemma ImagesGrow(w: World, traced: set<nat>, a: nat, b: nat)
    ensures IsImage(w, traced + {a}, b) <==> b == w.Dest(a) || IsImage(w, traced, b)
  {
    if b == w.Dest(a) {
      assert a in traced + {a};
    }
    if o :| o in traced && w.Dest(o) == b {
      assert o in traced + {a};
    }
  }

  lemma RetraceEnumerates(w: World, s: State, r: nat, lock: nat, scanned: seq<nat>)
    requires w.WellFormed() && s.traced <= w.objects && Enumerates(w, s, scanned)
    ensures Enumerates(w, RetraceLock(w, s, r, lock), scanned) && RetraceLock(w, s, r, lock).traced <= w.objects
  {
    TraceEnumerates(w, s, FieldAlignedLockRef(lock), scanned);
  }

  lemma {:induction false} ScanSlotsEnumerates(w: World, s: State, a: nat, slots: seq<int>, scanned: seq<nat>)
    requires w.WellFormed() && s.traced <= w.objects && Enumerates(w, s, scanned)
    ensures Enumerates(w, ScanSlots(w, s, a, slots), scanned) && ScanSlots(w, s, a, slots).traced <= w.objects
  {
    if slots != [] {
      ScanSlotsEnumerates(w, s, a, slots[..|slots| - 1], scanned);
      var s0, k := ScanSlots(w, s, a, slots[..|slots| - 1]), slots[|slots| - 1];
      var field := Word(s0.mem, a, k);
      TraceEnumerates(w, s0, field, scanned);
      var s1, t := Trace(w, s0, field), Forward(w, field);
      RetraceEnumerates(w, s1, Word(s1.mem, t, 0), Lock(s1.locks, Word(s1.mem, t, 0)), scanned);
      var s2 := RetraceLock(w, s1, Word(s1.mem, t, 0), Lock(s1.locks, Word(s1.mem, t, 0)));
      RetraceEnumerates(w, s2, Word(s2.mem, t, 0), Word(s2.mem, t, 1), scanned);
    }
  }

  // ---------- runs ----------

  function Without(q: seq<nat>, i: nat): seq<nat>
    requires i < |q|
  {
    q[..i] + q[i + 1..]
  }

  /** A worker takes any queued node and scans it. */
  function Step(w: World, s: State, i: nat): State
  {
    if i < |s.queue| then ScanNode(w, s.(queue := Without(s.queue, i)), s.queue[i]) else s
  }

  /** The state after the nodes at these queue positions have been scanned, one after the other. */
  function Run(w: World, s: State, picks: seq<nat>): State
  {
    if picks == [] then s else Step(w, Run(w, s, picks[..|picks| - 1]), picks[|picks| - 1])
  }

  ghost predicate IsRun(w: World, s: State, picks: seq<nat>)
  {
    picks != [] ==>
      IsRun(w, s, picks[..|picks| - 1]) && picks[|picks| - 1] < |Run(w, s, picks[..|picks| - 1]).queue|
  }

  /** The nodes a run scans, in order. */
  ghost function Scanned(w: World, s: State, picks: seq<nat>): seq<nat>
    requires IsRun(w, s, picks)
  {
    if picks == [] then []
    else
      var before := picks[..|picks| - 1];
      Scanned(w, s, before) + [Run(w, s, before).queue[picks[|picks| - 1]]]
  }

  /** No black object waits for a white one: every traced object is queued or finished. */
  ghost predicate TriColour(w: World, s: State)
  {
    forall o :: o in s.traced ==> w.Dest(o) in s.queue || Black(w, s, o)
  }

  lemma WithoutIsRest(q: seq<nat>, i: nat)
    requires i < |q|
    ensures multiset(q) == multiset(Without(q, i)) + multiset{q[i]}
  {
    assert q == q[..i] + [q[i]] + q[i + 1..];
  }

  lemma StepKeeps(w: World, s: State, i: nat, scanned: seq<nat>)
    requires w.WellFormed() && Inv(w, s) && TriColour(w, s) && Enumerates(w, s, scanned) && i < |s.queue|
    ensures var s' := Step(w, s, i);
            && Inv(w, s') && TriColour(w, s') && Enumerates(w, s', scanned + [s.queue[i]])
            && s.traced <= s'.traced && s.weak <= s'.weak
  {
    var a := s.queue[i];
    var s0 := s.(queue := Without(s.queue, i));
    WithoutIsRest(s.queue, i);
    DequeueKeepsInv(w, s, i);
    assert IsImage(w, s.traced, a);
    var n :| n in s.traced && w.Dest(n) == a;
    ScanNodeBlackens(w, s0, n);
    var s' := Step(w, s, i);
    var scanned' := scanned + [a];
    assert multiset(scanned') + multiset(s0.queue) == multiset(scanned) + multiset(s.queue);
    assert Enumerates(w, s0, scanned');
    ScanSlotsEnumerates(w, s0, a, w.SlotsOf(s0.mem, a), scanned');
    forall o | o in s'.traced
      ensures w.Dest(o) in s'.queue || Black(w, s', o)
    {
      if o in s.traced {
        BlackIgnoresQueue(w, s, s0, o);
        if w.Dest(o) == a {
          DestInjective(w, o, n);
        } else if w.Dest(o) in s.queue {
          assert w.Dest(o) in multiset(s.queue);
          assert w.Dest(o) in multiset(s0.queue);
        }
      } else {
        NewlyTracedIsQueued(w, s0, s', o, scanned');
      }
    }
  }

  lemma BlackIgnoresQueue(w: World, s: State, s': State, o: nat)
    requires s' == s.(queue := s'.queue)
    ensures Black(w, s, o) <==> Black(w, s', o)
  {
    assert forall k :: Done(w, s, o, k) <==> Done(w, s', o, k);
  }

  lemma NewlyTracedIsQueued(w: World, s: State, s': State, o: nat, scanned: seq<nat>)
    requires w.WellFormed() && s.traced <= w.objects && s'.traced <= w.objects
    requires Enumerates(w, s, scanned) && Enumerates(w, s', scanned)
    requires o in s'.traced && o !in s.traced
    ensures w.Dest(o) in s'.queue
  {
    var a := w.Dest(o);
    assert IsImage(w, s'.traced, a);
    if IsImage(w, s.traced, a) {
      var p :| p in s.traced && w.Dest(p) == a;
      DestInjective(w, p, o);
    }
    assert (multiset(scanned) + multiset(s.queue))[a] == 0;
    assert (multiset(scanned) + multiset(s'.queue))[a] == 1;
    assert multiset(s'.queue)[a] == 1;
  }

  lemma DequeueKeepsInv(w: World, s: State, i: nat)
    requires w.WellFormed() && Inv(w, s) && i < |s.queue|
    ensures Inv(w, s.(queue := Without(s.queue, i)))
  {
    forall a | a in Without(s.queue, i)
      ensures IsImage(w, s.traced, a)
    {
      assert a in s.queue;
    }
  }

  /** Every run keeps the invariant and the tri-colour property, and scans nothing twice. */
  lemma {:induction false} RunKeeps(w: World, s: State, picks: seq<nat>)
    requires w.WellFormed() && Inv(w, s) && TriColour(w, s) && Enumerates(w, s, []) && IsRun(w, s, picks)
    ensures var s' := Run(w, s, picks);
            && Inv(w, s') && TriColour(w, s') && Enumerates(w, s', Scanned(w, s, picks))
            && s.traced <= s'.traced && s.weak <= s'.weak
            && |Scanned(w, s, picks)| == |picks|
  {
    if picks != [] {
      var before := picks[..|picks| - 1];
      RunKeeps(w, s, before);
      StepKeeps(w, Run(w, s, before), picks[|picks| - 1], Scanned(w, s, before));
    }
  }

  /** A step either traces something new or shortens the queue: what a worklist loop terminates by. */
  lemma StepShrinks(w: World, s: State, i: nat, scanned: seq<nat>)
    requires w.WellFormed() && Inv(w, s) && TriColour(w, s) && Enumerates(w, s, scanned) && i < |s.queue|
    ensures var s' := Step(w, s, i);
            s.traced <= s'.traced <= w.objects && (s.traced == s'.traced ==> |s'.queue| < |s.queue|)
  {
    StepKeeps(w, s, i, scanned);
    var s' := Step(w, s, i);
    if s.traced == s'.traced {
      forall a
        ensures multiset(s.queue)[a] == (multiset{s.queue[i]} + multiset(s'.queue))[a]
      {
        assert multiset(scanned + [s.queue[i]]) == multiset(scanned) + multiset{s.queue[i]};
        assert (multiset(scanned) + multiset(s.queue))[a] == (multiset(scanned + [s.queue[i]]) + multiset(s'.queue))[a];
      }
      assert multiset(s.queue) == multiset{s.queue[i]} + multiset(s'.queue);
      assert |multiset(s.queue)| == |s.queue| && |multiset(s'.queue)| == |s'.queue|;
    }
  }

  /** Taking a node off the queue: which object it is, and that scanning it keeps everything and makes progress. */
  lemma TakeNode(w: World, s0: State, picks: seq<nat>, s: State, i: nat, scanned: seq<nat>) returns (o: nat)
    requires w.WellFormed() && Inv(w, s) && TriColour(w, s) && Enumerates(w, s, scanned) && i < |s.queue|
    requires IsRun(w, s0, picks) && s == Run(w, s0, picks)
    ensures IsRun(w, s0, picks + [i]) && Run(w, s0, picks + [i]) == Step(w, s, i)
    ensures o in s.traced && w.Dest(o) == s.queue[i]
    ensures Inv(w, s.(queue := Without(s.queue, i)))
    ensures Step(w, s, i) == ScanNode(w, s.(queue := Without(s.queue, i)), s.queue[i])
    ensures var s' := Step(w, s, i);
            && Inv(w, s') && TriColour(w, s') && Enumerates(w, s', scanned + [s.queue[i]])
            && s.traced <= s'.traced <= w.objects
            && (s.traced == s'.traced ==> |s'.queue| < |s.queue|)
  {
    assert IsImage(w, s.traced, s.queue[i]);
    o :| o in s.traced && w.Dest(o) == s.queue[i];
    StepKeeps(w, s, i, scanned);
    StepShrinks(w, s, i, scanned);
    DequeueKeepsInv(w, s, i);
    RunSnoc(w, s0, picks, i);
  }

  lemma RunSnoc(w: World, s: State, picks: seq<nat>, i: nat)
    requires IsRun(w, s, picks) && i < |Run(w, s, picks).queue|
    ensures IsRun(w, s, picks + [i]) && Run(w, s, picks + [i]) == Step(w, Run(w, s, picks), i)
  {
    assert (picks + [i])[..|picks|] == picks;
  }
}
