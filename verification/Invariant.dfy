// What every step of a trace keeps.
module Invariant {
  import opened Abi
  import opened Heap
  import opened ObjectModel
  import opened Tracing

  // ---------- reachability, on the starting heap ----------

  ghost function RttiMonitor(w: World, v: nat): set<nat>
  {
    var lock := w.Lock0(w.Old(v, 0));
    if FieldIsInflatedLock(lock) then {FieldAlignedLockRef(lock)} else {}
  }

  ghost function OwnMonitor(w: World, v: nat): set<nat>
  {
    var lock := w.Old(v, 1);
    if FieldIsInflatedLock(lock) then {FieldAlignedLockRef(lock)} else {}
  }

  /**
   * What a slot that refers to v keeps: v and the monitors of v's two lock words. The lock
   * words of those monitors are not looked at, unless a slot refers to a monitor too.
   */
  ghost function Keeps(w: World, v: nat): set<nat>
  {
    {v} + RttiMonitor(w, v) + OwnMonitor(w, v)
  }

  ghost predicate Edge(w: World, o: nat, x: nat)
  {
    exists k :: k in w.Slots(o) && w.Old(o, k) in w.objects && x in Keeps(w, w.Old(o, k))
  }

  ghost predicate IsPath(w: World, path: seq<nat>)
  {
    && |path| > 0 && path[0] in w.roots
    && forall i :: 0 <= i < |path| - 1 ==> Edge(w, path[i], path[i + 1])
  }

  ghost predicate Reach(w: World, x: nat)
  {
    exists path :: IsPath(w, path) && path[|path| - 1] == x
  }

  lemma ReachRoot(w: World, r: nat)
    requires r in w.roots
    ensures Reach(w, r)
  {
    assert IsPath(w, [r]);
  }

  lemma ReachStep(w: World, o: nat, x: nat)
    requires Reach(w, o) && Edge(w, o, x)
    ensures Reach(w, x)
  {
    var path :| IsPath(w, path) && path[|path| - 1] == o;
    var longer := path + [x];
    assert forall i :: 0 <= i < |longer| - 1 ==> Edge(w, longer[i], longer[i + 1]);
    assert IsPath(w, longer);
  }

  // ---------- the invariant ----------

  /** An object nobody has traced is as it was. */
  ghost predicate Intact(w: World, mem: Memory, o: nat)
  {
    forall k :: 0 <= k < w.Words(o) ==> Word(mem, o, k) == w.Old(o, k)
  }

  /** What evacuation leaves behind: a forwarding word over otherwise unchanged words. */
  ghost predicate Condemned(w: World, mem: Memory, o: nat)
  {
    && Word(mem, o, 0) == w.Dest(o) + FORWARDED
    && forall k :: 1 <= k < w.Words(o) ==> Word(mem, o, k) == w.Old(o, k)
  }

  /** A word of a traced object is the old word or, in a scanned slot, the forwarded reference. */
  ghost predicate WordOk(w: World, mem: Memory, traced: set<nat>, o: nat, k: int)
  {
    var v, now := w.Old(o, k), Word(mem, w.Dest(o), k);
    now == v || (k in w.Slots(o) && v in w.objects && v in traced && now == w.Dest(v))
  }

  ghost predicate Held(w: World, mem: Memory, traced: set<nat>, o: nat)
  {
    forall k :: 0 <= k < w.Words(o) ==> WordOk(w, mem, traced, o, k)
  }

  /** What memory holds of the objects, whether or not a trace may reach them. */
  ghost predicate Objects(w: World, mem: Memory, traced: set<nat>)
  {
    && mem.Keys == w.mem0.Keys && traced <= w.objects
    && (forall o {:trigger Intact(w, mem, o)} :: o in w.objects && o !in traced ==> Intact(w, mem, o))
    && (forall o {:trigger Condemned(w, mem, o)} :: o in traced && w.Moves(o) ==> Condemned(w, mem, o))
    && (forall o {:trigger Held(w, mem, traced, o)} :: o in traced ==> Held(w, mem, traced, o))
  }

  /** A strong slot of a reachable object refers to v. */
  ghost predicate IsSlotTarget(w: World, v: nat)
  {
    v in w.objects && exists p, k :: SlotRefersTo(w, p, k, v)
  }

  ghost predicate SlotRefersTo(w: World, p: nat, k: int, v: nat)
  {
    Reach(w, p) && k in w.Slots(p) && w.Old(p, k) == v
  }

  /** What a collection retains, told from the starting heap: the roots and what slot targets keep. */
  ghost predicate Retained(w: World, x: nat)
  {
    x in w.roots || exists u :: IsSlotTarget(w, u) && x in Keeps(w, u)
  }

  /** Reachability goes one step along lock words and no further. */
  lemma ReachExactly(w: World, x: nat)
    ensures Reach(w, x) <==> Retained(w, x)
  {
    if Reach(w, x) {
      var path :| IsPath(w, path) && path[|path| - 1] == x;
      if |path| > 1 {
        LastEdge(w, path);
      }
    }
    if x in w.roots {
      ReachRoot(w, x);
    } else if u :| IsSlotTarget(w, u) && x in Keeps(w, u) {
      SlotTargetKeeps(w, u);
    }
  }

  lemma LastEdge(w: World, path: seq<nat>)
    requires IsPath(w, path) && |path| > 1
    ensures Retained(w, path[|path| - 1])
  {
    var front, x := path[..|path| - 1], path[|path| - 1];
    var p := front[|front| - 1];
    assert forall i :: 0 <= i < |front| - 1 ==> Edge(w, path[i], path[i + 1]);
    assert IsPath(w, front) && Reach(w, p);
    assert Edge(w, path[|path| - 2], path[|path| - 2 + 1]);
    var k :| k in w.Slots(p) && w.Old(p, k) in w.objects && x in Keeps(w, w.Old(p, k));
    assert SlotRefersTo(w, p, k, w.Old(p, k));
    assert IsSlotTarget(w, w.Old(p, k));
  }

  /** What a slot refers to is reachable, with the monitors of its two lock words. */
  lemma SlotTargetKeeps(w: World, v: nat)
    requires IsSlotTarget(w, v)
    ensures forall m :: m in Keeps(w, v) ==> Reach(w, m)
    ensures ClassScanned(w, w.Old(v, 0))
  {
    var p, k :| SlotRefersTo(w, p, k, v);
    forall m | m in Keeps(w, v)
      ensures Reach(w, m)
    {
      assert Edge(w, p, m);
      ReachStep(w, p, m);
    }
  }

  /** An instance of the class is the target of a slot, so a scan comes across its class lock word. */
  ghost predicate ClassScanned(w: World, rtti: nat)
  {
    exists u :: IsSlotTarget(w, u) && w.Old(u, 0) == rtti
  }

  /** A slot refers to the instance u of the class, whose own lock word names the monitor m. */
  ghost predicate StoresOwn(w: World, rtti: nat, u: nat, m: nat)
  {
    && IsSlotTarget(w, u) && w.Old(u, 0) == rtti
    && FieldIsInflatedLock(w.Old(u, 1)) && FieldAlignedLockRef(w.Old(u, 1)) == m
  }

  /** The class lock word names the monitor m when the collection starts. */
  ghost predicate ClassNames(w: World, rtti: nat, m: nat)
  {
    FieldIsInflatedLock(w.Lock0(rtti)) && FieldAlignedLockRef(w.Lock0(rtti)) == m
  }

  /** A monitor whose address a scan may store into the class lock word. */
  ghost predicate Storable(w: World, rtti: nat, m: nat)
  {
    ClassNames(w, rtti, m) || exists u :: StoresOwn(w, rtti, u, m)
  }

  /** The class lock word is the tagged forwarded address of a traced monitor m. */
  ghost predicate LockTracedAs(w: World, traced: set<nat>, rtti: nat, lock: nat, m: nat)
  {
    m in traced && lock == FieldInflateLockRef(w.Dest(m)) && Storable(w, rtti, m)
  }

  /** The class lock word is the tagged forwarded address of an own monitor of some slot target of the class. */
  ghost predicate OwnStored(w: World, rtti: nat, lock: nat)
  {
    exists u, m :: StoresOwn(w, rtti, u, m) && lock == FieldInflateLockRef(w.Dest(m))
  }

  /** The monitor a class lock word started with has been traced, if it had one. */
  ghost predicate LockKept(w: World, traced: set<nat>, rtti: nat)
  {
    FieldIsInflatedLock(w.Lock0(rtti)) ==> FieldAlignedLockRef(w.Lock0(rtti)) in traced
  }

  /** A class lock word is as it was, or a scan has come across it and it names a traced monitor. */
  ghost predicate LockOk(w: World, traced: set<nat>, rtti: nat, lock: nat)
  {
    || lock == w.Lock0(rtti)
    || (LockKept(w, traced, rtti) && ClassScanned(w, rtti) && exists m :: LockTracedAs(w, traced, rtti, lock, m))
  }

  /** An entry of the weak stack was left there, or is the forwarded address of a weak root or slot target. */
  ghost predicate WeakOk(w: World, traced: set<nat>, a: nat)
  {
    || a in w.leftover
    || exists o :: o in traced && w.Dest(o) == a && w.IsWeak(o) && (o in w.roots || IsSlotTarget(w, o))
  }

  /** The addresses a trace may have written to. */
  ghost predicate Touched(w: World, traced: set<nat>, address: int)
  {
    exists o, k :: TouchedBy(w, traced, address, o, k)
  }

  ghost predicate TouchedBy(w: World, traced: set<nat>, address: int, o: nat, k: int)
  {
    && o in traced && 0 <= k < w.Words(o)
    && if w.Moves(o) then address == o || address == w.Dest(o) + 8 * k
       else k in w.Slots(o) && w.Old(o, k) in w.objects && address == o + 8 * k
  }

  ghost predicate Inv(w: World, s: State)
  {
    && Objects(w, s.mem, s.traced) && s.locks.Keys == w.locks0.Keys
    && (forall r {:trigger LockOk(w, s.traced, r, Lock(s.locks, r))} ::
          r in w.classes ==> LockOk(w, s.traced, r, Lock(s.locks, r)))
    && (forall a {:trigger WeakOk(w, s.traced, a)} :: a in s.weak ==> WeakOk(w, s.traced, a))
    && (forall a {:trigger IsImage(w, s.traced, a)} :: a in s.queue ==> IsImage(w, s.traced, a))
    && (forall o {:trigger Reach(w, o)} :: o in s.traced ==> Reach(w, o))
    && (forall a {:trigger Touched(w, s.traced, a)} :: a in w.mem0 && s.mem[a] != w.mem0[a] ==> Touched(w, s.traced, a))
  }

  /** One slot of a scanned object: its target is traced, stored forwarded, and so are its monitors and weak entry. */
  ghost predicate Done(w: World, s: State, o: nat, k: int)
  {
    var v := w.Old(o, k);
    v in w.objects ==>
      && v in s.traced && Word(s.mem, w.Dest(o), k) == w.Dest(v)
      && Keeps(w, v) <= s.traced
      && LockKept(w, s.traced, w.Old(v, 0))
      && (w.IsWeak(v) ==> w.Dest(v) in s.weak)
      && LockSettled(w, s, w.Old(v, 0))
      && (FieldIsInflatedLock(w.Old(v, 1)) ==> OwnStored(w, w.Old(v, 0), Lock(s.locks, w.Old(v, 0))))
  }

  /** The class lock word of a reached object, if it named a monitor, names one that has been traced. */
  ghost predicate LockSettled(w: World, s: State, rtti: nat)
  {
    FieldIsInflatedLock(w.Lock0(rtti)) ==>
      exists m :: LockTracedAs(w, s.traced, rtti, Lock(s.locks, rtti), m)
  }

  ghost predicate Black(w: World, s: State, o: nat)
  {
    forall k :: k in w.Slots(o) ==> Done(w, s, o, k)
  }

  /** A step that touches no word of a traced object and takes nothing back. */
  ghost predicate Quiet(w: World, s: State, s': State)
  {
    && s.traced <= s'.traced && s.weak == s'.weak && s.queue <= s'.queue
    && (forall o, k :: o in s.traced && 0 <= k < w.Words(o) ==>
          Word(s'.mem, w.Dest(o), k) == Word(s.mem, w.Dest(o), k))
    && (forall r :: r in w.classes && LockSettled(w, s, r) ==> LockSettled(w, s', r))
    && (forall r :: r in w.classes && OwnStored(w, r, Lock(s.locks, r)) ==> OwnStored(w, r, Lock(s'.locks, r)))
  }

  // ---------- images ----------

  lemma DestInjective(w: World, o: nat, p: nat)
    requires w.WellFormed() && o in w.objects && p in w.objects && w.Dest(o) == w.Dest(p)
    ensures o == p
  {
    if o != p {
      assert w.Separate(o, p);
      SizeFacts(w, o);
      SizeFacts(w, p);
      assert false;
    }
  }

  /** A destination that is not its own object is not the address of any object. */
  lemma CopyIsNoObject(w: World, o: nat)
    requires w.WellFormed() && o in w.objects
    ensures w.Dest(o) in w.objects <==> !w.Moves(o)
  {
    if w.Moves(o) && w.Dest(o) in w.objects {
      assert w.Separate(o, w.Dest(o));
      SizeFacts(w, o);
      SizeFacts(w, w.Dest(o));
      assert false;
    }
  }

  /** Tracing an address that is already an image returns it and changes nothing. */
  lemma TraceImage(w: World, s: State, o: nat)
    requires w.WellFormed() && s.traced <= w.objects && o in s.traced
    ensures Trace(w, s, w.Dest(o)) == s && Trace(w, s, o) == s
    ensures Forward(w, w.Dest(o)) == w.Dest(o) && Forward(w, o) == w.Dest(o)
  {
    CopyIsNoObject(w, o);
  }

  // ---------- evacuation ----------

  /** Memory in which an object that nobody has traced may be evacuated. */
  ghost predicate Evacuable(w: World, mem: Memory, o: nat)
  {
    w.WellFormed() && o in w.objects && mem.Keys == w.mem0.Keys && Intact(w, mem, o)
  }

  lemma EvacuateImage(w: World, mem: Memory, o: nat)
    requires Evacuable(w, mem, o)
    ensures var after := Evacuate(w, mem, o);
            && after.Keys == mem.Keys
            && (forall k :: 0 <= k < w.Words(o) ==> Word(after, w.Dest(o), k) == w.Old(o, k))
            && (w.Moves(o) ==> Condemned(w, after, o))
  {
    if w.Moves(o) {
      var tagged := MarkHeader(mem, o);
      TaggedHeader(w, mem, o);
      CopyIsFaithful(w, tagged, o, BEING_FORWARDED);
      CopyLeavesSource(w, tagged, o);
      ForwardingWordStays(w, CopyObject(w, tagged, o, w.Dest(o)), o);
    }
  }

  /** The forwarding word goes over the old header and touches nothing of the copy. */
  lemma ForwardingWordStays(w: World, copied: Memory, o: nat)
    requires w.WellFormed() && o in w.objects && w.Moves(o) && copied.Keys == w.mem0.Keys
    ensures var after := LeaveForwardingWord(w, copied, o);
            && Word(after, o, 0) == w.Dest(o) + FORWARDED
            && (forall k :: 1 <= k < w.Words(o) ==> Word(after, o, k) == Word(copied, o, k))
            && (forall k :: 0 <= k < w.Words(o) ==> Word(after, w.Dest(o), k) == Word(copied, w.Dest(o), k))
  {
    SizeFacts(w, o);
    assert w.ObjectOk(o) && Readable(w.mem0, o, 0) && w.Separate(o, o);
    StoreApart(copied, o, w.Words(o), 0, w.Dest(o) + FORWARDED, w.Dest(o), w.Words(o));
  }

  lemma TaggedHeader(w: World, mem: Memory, o: nat)
    requires Evacuable(w, mem, o)
    ensures var tagged := MarkHeader(mem, o);
            TaggedImage(w, tagged, o, BEING_FORWARDED) && tagged.Keys == mem.Keys
    ensures Readable(mem, o, 0)
  {
    SizeFacts(w, o);
    assert w.ObjectOk(o);
    assert Readable(w.mem0, o, 0);
  }

  lemma MarkedIsCopyable(w: World, mem: Memory, o: nat)
    requires Evacuable(w, mem, o) && w.Moves(o)
    ensures Copyable(w, MarkHeader(mem, o), o, BEING_FORWARDED)
  {
    TaggedHeader(w, mem, o);
  }

  lemma CopyLeavesSource(w: World, mem: Memory, o: nat)
    requires w.WellFormed() && o in w.objects && w.Moves(o) && TaggedImage(w, mem, o, BEING_FORWARDED)
    ensures forall k :: 0 <= k < w.Words(o) ==>
              Word(CopyObject(w, mem, o, w.Dest(o)), o, k) == Word(mem, o, k)
  {
    var n, to := w.Words(o), w.Dest(o);
    SizeForCopy(w, mem, o);
    SizeFacts(w, o);
    assert w.Separate(o, o);
    var raw := CopyWords(mem, o, to, 8 * n);
    CopyWordsOutside(mem, o, to, n, o, n);
    StoreApart(raw, to, n, 0, ClearForwardingBits(Word(raw, to, 0)), o, n);
  }

  lemma SizeForCopy(w: World, mem: Memory, o: nat)
    requires w.WellFormed() && o in w.objects && TaggedImage(w, mem, o, BEING_FORWARDED)
    ensures w.SizeForCopyAt(mem, o) == 8 * w.Words(o)
  {
    AlignmentIsWordMultiple(w.cfg);
    SizeForCopyIgnoresTagBits(w, mem, o, BEING_FORWARDED);
    SizeFacts(w, o);
  }

  /** Evacuation leaves alone every region apart from the object and its destination. */
  lemma EvacuateApart(w: World, mem: Memory, o: nat, b: nat, m: nat)
    requires Evacuable(w, mem, o)
    requires w.Moves(o) ==> Apart(o, w.Words(o), b, m) && Apart(w.Dest(o), w.Words(o), b, m)
    ensures forall k :: 0 <= k < m ==> Word(Evacuate(w, mem, o), b, k) == Word(mem, b, k)
  {
    SizeFacts(w, o);
    if w.Moves(o) {
      var n, to := w.Words(o), w.Dest(o);
      var tagged := MarkHeader(mem, o);
      TaggedHeader(w, mem, o);
      SizeForCopy(w, tagged, o);
      StoreApart(mem, o, n, 0, Word(mem, o, 0) + BEING_FORWARDED, b, m);
      var raw := CopyWords(tagged, o, to, 8 * n);
      CopyWordsOutside(tagged, o, to, n, b, m);
      StoreApart(raw, to, n, 0, ClearForwardingBits(Word(raw, to, 0)), b, m);
      var copied := CopyObject(w, tagged, o, to);
      StoreApart(copied, o, n, 0, to + FORWARDED, b, m);
    }
  }

  lemma EvacuateFrame(w: World, mem: Memory, o: nat, a: int)
    requires Evacuable(w, mem, o)
    requires a in mem && (w.Moves(o) ==> a != o)
    requires w.Moves(o) ==> forall k :: 0 <= k < w.Words(o) ==> a != w.Dest(o) + 8 * k
    ensures a in Evacuate(w, mem, o) && Evacuate(w, mem, o)[a] == mem[a]
  {
    SizeFacts(w, o);
    if w.Moves(o) {
      var n, to := w.Words(o), w.Dest(o);
      var tagged := MarkHeader(mem, o);
      TaggedHeader(w, mem, o);
      SizeForCopy(w, tagged, o);
      CopyWordsFrame(tagged, o, to, n, a);
      assert a != to + 8 * 0;
    }
  }

  /** Evacuating an object leaves every other one alone, at its address and at its destination. */
  lemma EvacuateElsewhere(w: World, mem: Memory, o: nat, p: nat)
    requires Evacuable(w, mem, o) && p in w.objects && p != o
    ensures forall k :: 0 <= k < w.Words(p) ==>
              Word(Evacuate(w, mem, o), w.Dest(p), k) == Word(mem, w.Dest(p), k)
    ensures forall k :: 0 <= k < w.Words(p) ==> Word(Evacuate(w, mem, o), p, k) == Word(mem, p, k)
  {
    assert w.Separate(o, p) && w.Separate(p, o);
    EvacuateApart(w, mem, o, w.Dest(p), w.Words(p));
    EvacuateApart(w, mem, o, p, w.Words(p));
  }

  // ---------- trace_object keeps the invariant ----------

  ghost predicate Kept(w: World, mem: Memory, traced: set<nat>, p: nat)
  {
    && (p !in traced ==> Intact(w, mem, p))
    && (p in traced && w.Moves(p) ==> Condemned(w, mem, p))
    && (p in traced ==> Held(w, mem, traced, p))
  }

  lemma ObjectsFromKept(w: World, mem: Memory, traced: set<nat>)
    requires mem.Keys == w.mem0.Keys && traced <= w.objects
    requires forall p {:trigger Kept(w, mem, traced, p)} :: p in w.objects ==> Kept(w, mem, traced, p)
    ensures Objects(w, mem, traced)
  {
    forall p | p in w.objects
      ensures p !in traced ==> Intact(w, mem, p)
      ensures p in traced ==> Held(w, mem, traced, p) && (w.Moves(p) ==> Condemned(w, mem, p))
    {
      assert Kept(w, mem, traced, p);
    }
  }

  lemma EvacuateKeepsObject(w: World, mem: Memory, traced: set<nat>, o: nat, p: nat)
    requires Evacuable(w, mem, o) && Objects(w, mem, traced) && o !in traced && p in w.objects
    ensures Kept(w, Evacuate(w, mem, o), traced + {o}, p)
  {
    var after := Evacuate(w, mem, o);
    SizeFacts(w, p);
    if p == o {
      EvacuateImage(w, mem, o);
      assert forall k :: 0 <= k < w.Words(o) ==> WordOk(w, after, traced + {o}, o, k);
    } else {
      EvacuateElsewhere(w, mem, o, p);
      if p in traced {
        assert w.Moves(p) ==> Condemned(w, mem, p);
        assert Held(w, mem, traced, p);
        forall k | 0 <= k < w.Words(p)
          ensures WordOk(w, after, traced + {o}, p, k)
        {
          assert WordOk(w, mem, traced, p, k);
        }
      } else {
        assert Intact(w, mem, p);
      }
    }
  }

  /** Tracing any object, reachable or not, keeps what memory holds of all of them. */
  lemma TraceKeepsObjects(w: World, s: State, a: nat)
    requires w.WellFormed() && Objects(w, s.mem, s.traced)
    ensures var s' := Trace(w, s, a);
            && Objects(w, s'.mem, s'.traced)
            && (forall p, k :: p in s.traced && 0 <= k < w.Words(p) ==>
                  Word(s'.mem, w.Dest(p), k) == Word(s.mem, w.Dest(p), k))
  {
    if a in w.objects && a !in s.traced {
      var s' := Trace(w, s, a);
      assert Intact(w, s.mem, a);
      EvacuateImage(w, s.mem, a);
      forall p | p in w.objects
        ensures Kept(w, s'.mem, s'.traced, p)
      {
        EvacuateKeepsObject(w, s.mem, s.traced, a, p);
      }
      ObjectsFromKept(w, s'.mem, s'.traced);
      forall p, k | p in s.traced && 0 <= k < w.Words(p)
        ensures Word(s'.mem, w.Dest(p), k) == Word(s.mem, w.Dest(p), k)
      {
        EvacuateElsewhere(w, s.mem, a, p);
      }
    }
  }

  lemma TraceKeepsInv(w: World, s: State, a: nat)
    requires w.WellFormed() && Inv(w, s)
    requires a in w.objects ==> Reach(w, a)
    ensures Inv(w, Trace(w, s, a)) && Quiet(w, s, Trace(w, s, a))
    ensures a in w.objects ==> a in Trace(w, s, a).traced
  {
    if a in w.objects && a !in s.traced {
      TraceKeepsObjects(w, s, a);
      TraceKeepsTables(w, s, a);
      TraceKeepsFrame(w, s, a);
      forall r | r in w.classes && LockSettled(w, s, r)
        ensures LockSettled(w, Trace(w, s, a), r)
      {
        LockSettledGrows(w, s, Trace(w, s, a), r);
      }
    }
  }

  lemma LockSettledGrows(w: World, s: State, s': State, r: nat)
    requires LockSettled(w, s, r) && s.traced <= s'.traced && Lock(s.locks, r) == Lock(s'.locks, r)
    ensures LockSettled(w, s', r)
  {
    if FieldIsInflatedLock(w.Lock0(r)) {
      var m :| LockTracedAs(w, s.traced, r, Lock(s.locks, r), m);
      assert LockTracedAs(w, s'.traced, r, Lock(s'.locks, r), m);
    }
  }

  lemma LockOkGrows(w: World, before: set<nat>, after: set<nat>, r: nat, lock: nat)
    requires LockOk(w, before, r, lock) && before <= after
    ensures LockOk(w, after, r, lock)
  {
    if lock != w.Lock0(r) {
      var m :| LockTracedAs(w, before, r, lock, m);
      assert LockTracedAs(w, after, r, lock, m);
    }
  }

  lemma TraceKeepsTables(w: World, s: State, a: nat)
    requires w.WellFormed() && Inv(w, s) && a in w.objects && a !in s.traced
    ensures var s' := Trace(w, s, a);
            && (forall r {:trigger LockOk(w, s'.traced, r, Lock(s'.locks, r))} ::
                  r in w.classes ==> LockOk(w, s'.traced, r, Lock(s'.locks, r)))
            && (forall x {:trigger WeakOk(w, s'.traced, x)} :: x in s'.weak ==> WeakOk(w, s'.traced, x))
            && (forall x {:trigger IsImage(w, s'.traced, x)} :: x in s'.queue ==> IsImage(w, s'.traced, x))
  {
    var s' := Trace(w, s, a);
    forall r | r in w.classes
      ensures LockOk(w, s'.traced, r, Lock(s'.locks, r))
    {
      assert LockOk(w, s.traced, r, Lock(s.locks, r));
      LockOkGrows(w, s.traced, s'.traced, r, Lock(s.locks, r));
    }
    forall x | x in s'.weak
      ensures WeakOk(w, s'.traced, x)
    {
      assert WeakOk(w, s.traced, x);
    }
    forall x | x in s'.queue
      ensures IsImage(w, s'.traced, x)
    {
      if x in s.queue {
        assert IsImage(w, s.traced, x);
      }
    }
  }

  lemma TouchedGrows(w: World, before: set<nat>, after: set<nat>, a: int)
    requires Touched(w, before, a) && before <= after
    ensures Touched(w, after, a)
  {
    var o, k :| TouchedBy(w, before, a, o, k);
    assert TouchedBy(w, after, a, o, k);
  }

  lemma TraceKeepsFrame(w: World, s: State, o: nat)
    requires w.WellFormed() && Inv(w, s) && o in w.objects && o !in s.traced
    ensures var s' := Trace(w, s, o);
            forall a {:trigger Touched(w, s'.traced, a)} ::
              a in w.mem0 && s'.mem[a] != w.mem0[a] ==> Touched(w, s'.traced, a)
  {
    var s' := Trace(w, s, o);
    SizeFacts(w, o);
    assert Intact(w, s.mem, o);
    EvacuateImage(w, s.mem, o);
    forall a | a in w.mem0 && s'.mem[a] != w.mem0[a]
      ensures Touched(w, s'.traced, a)
    {
      if s.mem[a] != w.mem0[a] {
        TouchedGrows(w, s.traced, s'.traced, a);
      } else if w.Moves(o) && a == o {
        assert TouchedBy(w, s'.traced, a, o, 0);
      } else if k :| w.Moves(o) && 0 <= k < w.Words(o) && a == w.Dest(o) + 8 * k {
        assert TouchedBy(w, s'.traced, a, o, k);
      } else {
        EvacuateFrame(w, s.mem, o, a);
      }
    }
  }
}
