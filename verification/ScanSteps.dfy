// Scanning steps keep the invariant, and a scanned object is black.
module ScanSteps {
  import opened Abi
  import opened Heap
  import opened ObjectModel
  import opened Tracing
  import opened Invariant

  lemma QuietTrans(w: World, s0: State, s1: State, s2: State)
    requires Quiet(w, s0, s1) && Quiet(w, s1, s2)
    ensures Quiet(w, s0, s2)
  {
  }

  // ---------- lock words ----------

  /** The header and the own lock word of a traced object, read through its forwarded address. */
  lemma HeaderOfImage(w: World, s: State, v: nat)
    requires w.WellFormed() && Inv(w, s) && v in s.traced
    ensures Word(s.mem, w.Dest(v), 0) == w.Old(v, 0) && w.Old(v, 0) in w.classes
    ensures Word(s.mem, w.Dest(v), 1) == w.Old(v, 1)
    ensures w.ClassAt(s.mem, w.Dest(v)) == w.Class(v)
    ensures w.SlotsOf(s.mem, w.Dest(v)) == w.Slots(v)
  {
    SizeFacts(w, v);
    assert w.ObjectOk(v);
    assert Held(w, s.mem, s.traced, v) && WordOk(w, s.mem, s.traced, v, 0) && WordOk(w, s.mem, s.traced, v, 1);
    if 0 in w.Slots(v) {
      SlotsInside(w, v, 0);
    }
    if 1 in w.Slots(v) {
      SlotsInside(w, v, 1);
    }
    if IsArrayId(w.cfg, w.Class(v).id) {
      assert WordOk(w, s.mem, s.traced, v, 2);
      if 2 in w.Slots(v) {
        SlotsInside(w, v, 2);
      }
    }
    SameViewSameScan(w, s.mem, w.Dest(v), v);
  }

  lemma SizeOfImage(w: World, s: State, v: nat)
    requires w.WellFormed() && Inv(w, s) && v in s.traced
    ensures w.SizeAt(s.mem, w.Dest(v)) == w.SizeAt(w.mem0, v)
  {
    HeaderOfImage(w, s, v);
    SizeFacts(w, v);
    if IsArrayId(w.cfg, w.Class(v).id) {
      assert Held(w, s.mem, s.traced, v) && WordOk(w, s.mem, s.traced, v, 2);
      if 2 in w.Slots(v) {
        SlotsInside(w, v, 2);
      }
    }
    SameViewSameScan(w, s.mem, w.Dest(v), v);
  }

  lemma TagOfDest(w: World, m: nat)
    requires w.WellFormed() && m in w.objects
    ensures FieldInflateLockRef(w.Dest(m)) == w.Dest(m) + 1
    ensures FieldIsInflatedLock(FieldInflateLockRef(w.Dest(m)))
    ensures FieldAlignedLockRef(FieldInflateLockRef(w.Dest(m))) == w.Dest(m)
  {
    assert w.DestOk(m);
    TagEven(w.Dest(m));
  }

  /** The monitor a lock word names: an object, or the copy of a traced one; `origin` is the object. */
  ghost predicate Names(w: World, s: State, monitor: nat, origin: nat)
  {
    && origin in w.objects && Reach(w, origin)
    && (monitor == origin || (monitor == w.Dest(origin) && origin in s.traced))
  }

  /** A lock word whose monitor, if it has one, may be traced and stored into the class lock word of r. */
  ghost predicate Retraceable(w: World, s: State, r: nat, lock: nat, origin: nat)
  {
    FieldIsInflatedLock(lock) ==>
      && Names(w, s, FieldAlignedLockRef(lock), origin)
      && (FieldAlignedLockRef(w.Lock0(r)) == origin || LockKept(w, s.traced, r))
      && Storable(w, r, origin) && ClassScanned(w, r)
      && (OwnStored(w, r, Lock(s.locks, r)) ==> OwnStored(w, r, FieldInflateLockRef(w.Dest(origin))))
  }

  lemma TraceMonitor(w: World, s: State, monitor: nat, origin: nat)
    requires w.WellFormed() && Inv(w, s) && Names(w, s, monitor, origin)
    ensures Inv(w, Trace(w, s, monitor)) && Quiet(w, s, Trace(w, s, monitor))
    ensures Trace(w, s, monitor).locks == s.locks
    ensures Forward(w, monitor) == w.Dest(origin) && origin in Trace(w, s, monitor).traced
  {
    if origin in s.traced {
      TraceImage(w, s, origin);
    }
    TraceKeepsInv(w, s, monitor);
  }

  lemma RetraceLockKeepsInv(w: World, s: State, r: nat, lock: nat, origin: nat)
    requires w.WellFormed() && Inv(w, s) && r in w.classes && Retraceable(w, s, r, lock, origin)
    ensures var s' := RetraceLock(w, s, r, lock);
            && Inv(w, s') && Quiet(w, s, s')
            && (forall q :: q != r ==> Lock(s'.locks, q) == Lock(s.locks, q))
            && (FieldIsInflatedLock(lock) ==>
                  LockTracedAs(w, s'.traced, r, Lock(s'.locks, r), origin) && LockKept(w, s'.traced, r))
            && (!FieldIsInflatedLock(lock) ==> s' == s)
  {
    if FieldIsInflatedLock(lock) {
      var monitor := FieldAlignedLockRef(lock);
      var s1 := Trace(w, s, monitor);
      TraceMonitor(w, s, monitor, origin);
      var s' := RetraceLock(w, s, r, lock);
      assert w.ClassOk(r);
      assert Lock(s'.locks, r) == FieldInflateLockRef(w.Dest(origin));
      assert LockTracedAs(w, s'.traced, r, Lock(s'.locks, r), origin);
      LockStoreKeepsInv(w, s1, s', r);
      LockStoreIsQuiet(w, s1, s', r, origin);
      QuietTrans(w, s, s1, s');
    }
  }

  lemma LockStoreIsQuiet(w: World, s: State, s': State, r: nat, origin: nat)
    requires s' == s.(locks := s'.locks) && forall q :: q != r ==> Lock(s'.locks, q) == Lock(s.locks, q)
    requires LockTracedAs(w, s'.traced, r, Lock(s'.locks, r), origin)
    requires OwnStored(w, r, Lock(s.locks, r)) ==> OwnStored(w, r, Lock(s'.locks, r))
    ensures Quiet(w, s, s')
  {
    forall q | q in w.classes && LockSettled(w, s, q)
      ensures LockSettled(w, s', q)
    {
      if q != r {
        LockSettledGrows(w, s, s', q);
      }
    }
  }

  /** A store to one class lock word; what the invariant says of memory does not look at the locks. */
  lemma LockStoreKeepsInv(w: World, s: State, s': State, r: nat)
    requires Inv(w, s) && s'.locks.Keys == s.locks.Keys && s' == s.(locks := s'.locks)
    requires forall q :: q != r ==> Lock(s'.locks, q) == Lock(s.locks, q)
    requires LockOk(w, s.traced, r, Lock(s'.locks, r))
    ensures Inv(w, s')
  {
    forall q | q in w.classes
      ensures LockOk(w, s'.traced, q, Lock(s'.locks, q))
    {
      assert LockOk(w, s.traced, q, Lock(s.locks, q));
    }
  }

  /** A stored own monitor is named the same way whether or not it has been traced. */
  lemma StoredNames(w: World, r: nat, lock: nat)
    requires w.WellFormed() && OwnStored(w, r, lock) && FieldAlignedLockRef(lock) in w.objects
    ensures lock == FieldInflateLockRef(w.Dest(FieldAlignedLockRef(lock)))
  {
    var u, m :| StoresOwn(w, r, u, m) && lock == FieldInflateLockRef(w.Dest(m));
    SizeFacts(w, u);
    assert w.ObjectOk(u);
    TagOfDest(w, m);
    CopyIsNoObject(w, m);
  }

  /** The class lock word still is what it was, so it names the class's first monitor. */
  lemma FirstLockRetraceable(w: World, s: State, v: nat)
    requires w.WellFormed() && IsSlotTarget(w, v) && w.Old(v, 0) in w.classes
    requires Lock(s.locks, w.Old(v, 0)) == w.Lock0(w.Old(v, 0))
    ensures var r := w.Old(v, 0); Retraceable(w, s, r, Lock(s.locks, r), FieldAlignedLockRef(w.Lock0(r)))
  {
    var r := w.Old(v, 0);
    SlotTargetKeeps(w, v);
    assert w.ClassOk(r);
    if FieldIsInflatedLock(w.Lock0(r)) {
      assert FieldAlignedLockRef(w.Lock0(r)) in Keeps(w, v);
      assert ClassNames(w, r, FieldAlignedLockRef(w.Lock0(r)));
      if OwnStored(w, r, w.Lock0(r)) {
        StoredNames(w, r, w.Lock0(r));
      }
    }
  }

  lemma RttiLockOrigin(w: World, s: State, v: nat) returns (origin: nat)
    requires w.WellFormed() && Inv(w, s) && v in s.traced
    requires IsSlotTarget(w, v)
    ensures var r := w.Old(v, 0); Retraceable(w, s, r, Lock(s.locks, r), origin)
    ensures var r := w.Old(v, 0);
            Lock(s.locks, r) == w.Lock0(r) || (FieldIsInflatedLock(Lock(s.locks, r)) && LockKept(w, s.traced, r))
    ensures Lock(s.locks, w.Old(v, 0)) == w.Lock0(w.Old(v, 0)) ==> origin == FieldAlignedLockRef(w.Lock0(w.Old(v, 0)))
  {
    var r := w.Old(v, 0);
    HeaderOfImage(w, s, v);
    assert LockOk(w, s.traced, r, Lock(s.locks, r));
    origin := FieldAlignedLockRef(w.Lock0(r));
    if Lock(s.locks, r) == w.Lock0(r) {
      FirstLockRetraceable(w, s, v);
    } else {
      origin :| LockTracedAs(w, s.traced, r, Lock(s.locks, r), origin);
      TagOfDest(w, origin);
      assert Reach(w, origin);
    }
  }

  lemma RetraceRttiLock(w: World, s: State, v: nat)
    requires w.WellFormed() && Inv(w, s) && v in s.traced
    requires IsSlotTarget(w, v)
    ensures var r := w.Old(v, 0);
            var s' := RetraceLock(w, s, r, Lock(s.locks, r));
            && Inv(w, s') && Quiet(w, s, s')
            && RttiMonitor(w, v) <= s'.traced && LockKept(w, s'.traced, r) && LockSettled(w, s', r)
  {
    hide Retraceable;
    hide RetraceLock;
    hide Quiet;
    HeaderOfImage(w, s, v);
    var origin := RttiLockOrigin(w, s, v);
    RetraceLockKeepsInv(w, s, w.Old(v, 0), Lock(s.locks, w.Old(v, 0)), origin);
  }

  lemma OwnLockRetraceable(w: World, s: State, v: nat)
    requires w.WellFormed() && Inv(w, s) && v in s.traced
    requires IsSlotTarget(w, v)
    requires LockKept(w, s.traced, w.Old(v, 0))
    ensures Retraceable(w, s, w.Old(v, 0), w.Old(v, 1), FieldAlignedLockRef(w.Old(v, 1)))
  {
    SlotTargetKeeps(w, v);
    if FieldIsInflatedLock(w.Old(v, 1)) {
      assert w.ObjectOk(v);
      assert FieldAlignedLockRef(w.Old(v, 1)) in Keeps(w, v);
      assert StoresOwn(w, w.Old(v, 0), v, FieldAlignedLockRef(w.Old(v, 1)));
    }
  }

  lemma RetraceOwnLock(w: World, s: State, v: nat)
    requires w.WellFormed() && Inv(w, s) && v in s.traced
    requires IsSlotTarget(w, v)
    requires LockKept(w, s.traced, w.Old(v, 0)) && LockSettled(w, s, w.Old(v, 0))
    ensures var r := w.Old(v, 0);
            var s' := RetraceLock(w, s, r, w.Old(v, 1));
            && Inv(w, s') && Quiet(w, s, s')
            && OwnMonitor(w, v) <= s'.traced && LockKept(w, s'.traced, r) && LockSettled(w, s', r)
            && (FieldIsInflatedLock(w.Old(v, 1)) ==> OwnStored(w, r, Lock(s'.locks, r)))
  {
    HeaderOfImage(w, s, v);
    OwnLockRetraceable(w, s, v);
    RetraceLockKeepsInv(w, s, w.Old(v, 0), w.Old(v, 1), FieldAlignedLockRef(w.Old(v, 1)));
    if FieldIsInflatedLock(w.Old(v, 1)) {
      assert StoresOwn(w, w.Old(v, 0), v, FieldAlignedLockRef(w.Old(v, 1)));
    }
  }

  /** Scanning the lock words of a traced object traces both monitors and settles the class lock word. */
  lemma ScanLocksKeepsInv(w: World, s: State, v: nat)
    requires w.WellFormed() && Inv(w, s) && v in s.traced
    requires IsSlotTarget(w, v)
    ensures var s' := ScanLocks(w, s, w.Dest(v));
            && Inv(w, s') && Quiet(w, s, s')
            && Keeps(w, v) <= s'.traced
            && LockKept(w, s'.traced, w.Old(v, 0)) && LockSettled(w, s', w.Old(v, 0))
            && (FieldIsInflatedLock(w.Old(v, 1)) ==> OwnStored(w, w.Old(v, 0), Lock(s'.locks, w.Old(v, 0))))
  {
    var r := w.Old(v, 0);
    HeaderOfImage(w, s, v);
    RetraceRttiLock(w, s, v);
    var s1 := RetraceLock(w, s, r, Lock(s.locks, r));
    HeaderOfImage(w, s1, v);
    RetraceOwnLock(w, s1, v);
    QuietTrans(w, s, s1, ScanLocks(w, s, w.Dest(v)));
  }

  // ---------- readability ----------

  /** The header and own lock word of a traced object are mapped, and hold what they held. */
  lemma HeaderReadable(w: World, s: State, v: nat)
    requires w.WellFormed() && Inv(w, s) && v in s.traced
    ensures w.Dest(v) in s.mem && s.mem[w.Dest(v)] == w.Old(v, 0)
    ensures w.Dest(v) + 8 in s.mem && s.mem[w.Dest(v) + 8] == w.Old(v, 1)
    ensures w.Old(v, 0) in w.classes && w.Old(v, 0) in s.locks
    ensures 0 < w.Dest(v) && 0 < w.Old(v, 0)
  {
    HeaderOfImage(w, s, v);
    SizeFacts(w, v);
    assert w.DestOk(v) && w.ClassOk(w.Old(v, 0));
    assert Readable(w.mem0, w.Dest(v), 0) && Readable(w.mem0, w.Dest(v), 1);
  }

  lemma SlotReadable(w: World, s: State, o: nat, k: int)
    requires w.WellFormed() && Inv(w, s) && o in s.traced && k in w.Slots(o)
    ensures w.Dest(o) + 8 * k in s.mem
  {
    SlotsInside(w, o, k);
    assert w.DestOk(o) && Readable(w.mem0, w.Dest(o), k);
  }

  lemma LengthReadable(w: World, s: State, v: nat)
    requires w.WellFormed() && Inv(w, s) && v in s.traced && IsArrayId(w.cfg, w.Class(v).id)
    ensures w.Dest(v) + 16 in s.mem && s.mem[w.Dest(v) + 16] == w.Old(v, 2)
    ensures LengthOf(w.Old(v, 2)) >= 0
  {
    SizeFacts(w, v);
    assert w.DestOk(v) && w.ObjectOk(v);
    assert Readable(w.mem0, w.Dest(v), 2);
    assert Held(w, s.mem, s.traced, v) && WordOk(w, s.mem, s.traced, v, 2);
    if 2 in w.Slots(v) {
      SlotsInside(w, v, 2);
    }
  }

  /** The states between the two stores of a lock-word scan, and what its code reads in each. */
  lemma LockScanStages(w: World, s: State, v: nat) returns (origin: nat, s1: State)
    requires w.WellFormed() && Inv(w, s) && v in s.traced && IsSlotTarget(w, v)
    ensures var a, r := w.Dest(v), w.Old(v, 0);
            && a > 0 && a in s.mem && s.mem[a] == r && r in s.locks
            && Retraceable(w, s, r, s.locks[r], origin)
            && s1 == RetraceLock(w, s, r, s.locks[r])
    ensures var a, own := w.Dest(v), w.Old(v, 1);
            && Inv(w, s1) && v in s1.traced && a + 8 in s1.mem && s1.mem[a + 8] == own
            && Retraceable(w, s1, w.Old(v, 0), own, FieldAlignedLockRef(own))
            && RetraceLock(w, s1, w.Old(v, 0), own) == ScanLocks(w, s, a)
  {
    HeaderOfImage(w, s, v);
    HeaderReadable(w, s, v);
    origin := RttiLockOrigin(w, s, v);
    RetraceRttiLock(w, s, v);
    s1 := RetraceLock(w, s, w.Old(v, 0), Lock(s.locks, w.Old(v, 0)));
    HeaderOfImage(w, s1, v);
    HeaderReadable(w, s1, v);
    OwnLockRetraceable(w, s1, v);
  }

  // ---------- one slot ----------

  lemma DoneStays(w: World, s: State, s': State, o: nat, k: int)
    requires w.WellFormed() && Inv(w, s) && Quiet(w, s, s')
    requires o in s.traced && k in w.Slots(o) && Done(w, s, o, k)
    ensures Done(w, s', o, k)
  {
    SlotsInside(w, o, k);
    var v := w.Old(o, k);
    if v in w.objects {
      assert w.ObjectOk(v);
    }
  }

  /** Storing the forwarded reference back into its slot keeps the invariant and every finished slot. */
  lemma StoreKeepsInv(w: World, s: State, o: nat, k: int)
    requires w.WellFormed() && Inv(w, s) && o in s.traced && k in w.Slots(o)
    requires w.Old(o, k) in s.traced
    ensures var s' := s.(mem := Store(s.mem, w.Dest(o), k, w.Dest(w.Old(o, k))));
            && Inv(w, s') && Word(s'.mem, w.Dest(o), k) == w.Dest(w.Old(o, k))
            && (forall p, j :: p in s.traced && j in w.Slots(p) && Done(w, s, p, j) ==> Done(w, s', p, j))
  {
    var s' := s.(mem := Store(s.mem, w.Dest(o), k, w.Dest(w.Old(o, k))));
    SlotsInside(w, o, k);
    assert w.DestOk(o) && Readable(w.mem0, w.Dest(o), k);
    forall p | p in w.objects
      ensures Kept(w, s'.mem, s.traced, p)
    {
      StoreKeepsObject(w, s, o, k, p);
    }
    StoreKeepsFrame(w, s, o, k);
    ObjectsFromKept(w, s'.mem, s.traced);
    forall p, j | p in s.traced && j in w.Slots(p) && Done(w, s, p, j)
      ensures Done(w, s', p, j)
    {
      SlotsInside(w, p, j);
      StoreKeepsObject(w, s, o, k, p);
    }
  }

  lemma StoreKeepsObject(w: World, s: State, o: nat, k: int, p: nat)
    requires w.WellFormed() && Inv(w, s) && o in s.traced && k in w.Slots(o)
    requires w.Old(o, k) in s.traced && p in w.objects
    ensures var mem := Store(s.mem, w.Dest(o), k, w.Dest(w.Old(o, k)));
            && Kept(w, mem, s.traced, p)
            && forall j :: 0 <= j < w.Words(p) && (p != o || j != k) ==>
                 Word(mem, w.Dest(p), j) == Word(s.mem, w.Dest(p), j)
  {
    var mem := Store(s.mem, w.Dest(o), k, w.Dest(w.Old(o, k)));
    var n := w.Words(o);
    SlotsInside(w, o, k);
    SizeFacts(w, p);
    assert w.Separate(o, p) && w.Separate(p, o);
    if p != o || w.Moves(o) {
      StoreApart(s.mem, w.Dest(o), n, k, w.Dest(w.Old(o, k)), p, w.Words(p));
    }
    if p != o {
      StoreApart(s.mem, w.Dest(o), n, k, w.Dest(w.Old(o, k)), w.Dest(p), w.Words(p));
    }
    if p in s.traced {
      assert Held(w, s.mem, s.traced, p) && (w.Moves(p) ==> Condemned(w, s.mem, p));
      forall j | 0 <= j < w.Words(p)
        ensures WordOk(w, mem, s.traced, p, j)
      {
        assert WordOk(w, s.mem, s.traced, p, j);
      }
    } else {
      assert Intact(w, s.mem, p);
    }
  }

  lemma StoreKeepsFrame(w: World, s: State, o: nat, k: int)
    requires w.WellFormed() && Inv(w, s) && o in s.traced && k in w.Slots(o) && w.Old(o, k) in w.objects
    ensures var s' := s.(mem := Store(s.mem, w.Dest(o), k, w.Dest(w.Old(o, k))));
            && s'.mem.Keys == s.mem.Keys
            && (forall a {:trigger Touched(w, s.traced, a)} ::
                  a in w.mem0 && s'.mem[a] != w.mem0[a] ==> Touched(w, s.traced, a))
  {
    SlotsInside(w, o, k);
    forall a | a in w.mem0 && a == w.Dest(o) + 8 * k
      ensures Touched(w, s.traced, a)
    {
      assert TouchedBy(w, s.traced, a, o, k);
    }
  }

  lemma PushKeepsInv(w: World, s: State, v: nat)
    requires w.WellFormed() && Inv(w, s) && v in s.traced && IsSlotTarget(w, v)
    ensures var s' := PushIfWeak(w, s, w.Dest(v));
            && s' == s.(weak := if w.IsWeak(v) then s.weak + [w.Dest(v)] else s.weak)
            && Inv(w, s')
            && (forall p, j :: p in s.traced && j in w.Slots(p) && Done(w, s, p, j) ==> Done(w, s', p, j))
  {
    HeaderOfImage(w, s, v);
    assert w.IsWeak(v) ==> WeakOk(w, s.traced, w.Dest(v));
  }

  /** What a slot of a traced object can hold, and what the scan makes of it. */
  lemma SlotContent(w: World, s: State, o: nat, k: int)
    requires w.WellFormed() && Inv(w, s) && o in s.traced && k in w.Slots(o)
    ensures var field, v := Word(s.mem, w.Dest(o), k), w.Old(o, k);
            && (v in w.objects ==>
                  && IsWordInHeap(w.cfg, field) && IsMmtkObject(w, s, field)
                  && Forward(w, field) == w.Dest(v)
                  && (field == v || (v in s.traced && field == w.Dest(v))))
            && (v !in w.objects ==> field == v && !IsMmtkObject(w, s, field))
  {
    SlotsInside(w, o, k);
    var field, v := Word(s.mem, w.Dest(o), k), w.Old(o, k);
    assert Held(w, s.mem, s.traced, o) && WordOk(w, s.mem, s.traced, o, k);
    if v in w.objects {
      assert w.ObjectOk(v) && w.DestOk(v);
      CopyIsNoObject(w, v);
    } else {
      assert w.ObjectOk(o) && w.NoDest(v);
    }
  }

  lemma SlotTargetReached(w: World, s: State, o: nat, k: int)
    requires w.WellFormed() && Inv(w, s) && o in s.traced && k in w.Slots(o) && w.Old(o, k) in w.objects
    ensures IsSlotTarget(w, w.Old(o, k))
    ensures Names(w, s, Word(s.mem, w.Dest(o), k), w.Old(o, k))
  {
    var v := w.Old(o, k);
    SlotContent(w, s, o, k);
    assert Reach(w, o) && SlotRefersTo(w, o, k, v);
    SlotTargetKeeps(w, v);
    assert v in Keeps(w, v);
  }

  /** The source's debug assertions: a traced object is valid, its class pointer not null, its size not zero. */
  ghost predicate LooksSound(w: World, s: State, v: nat)
  {
    var t := w.Dest(v);
    && IsMmtkObject(w, s, t)
    && t in s.mem && s.mem[t] != 0 && s.mem[t] in w.classes
    && w.SizeAt(s.mem, t) != 0
  }

  /** The states a slot's scan passes through before its store. */
  lemma ScanSlotStages(w: World, s: State, o: nat, k: int)
    requires w.WellFormed() && Inv(w, s) && o in s.traced && k in w.Slots(o) && w.Old(o, k) in w.objects
    ensures var field, v := Word(s.mem, w.Dest(o), k), w.Old(o, k);
            var s1 := Trace(w, s, field);
            var s2 := ScanLocks(w, s1, w.Dest(v));
            && IsMmtkObject(w, s, field) && Forward(w, field) == w.Dest(v)
            && Inv(w, s1) && v in s1.traced && Inv(w, s2) && v in s2.traced
            && Quiet(w, s, s1) && Quiet(w, s1, s2) && o in s2.traced && IsSlotTarget(w, v)
            && Keeps(w, v) <= s2.traced
            && LockKept(w, s2.traced, w.Old(v, 0)) && LockSettled(w, s2, w.Old(v, 0))
            && (FieldIsInflatedLock(w.Old(v, 1)) ==> OwnStored(w, w.Old(v, 0), Lock(s2.locks, w.Old(v, 0))))
  {
    var field, v := Word(s.mem, w.Dest(o), k), w.Old(o, k);
    SlotContent(w, s, o, k);
    SlotTargetReached(w, s, o, k);
    TraceMonitor(w, s, field, v);
    ScanLocksKeepsInv(w, Trace(w, s, field), v);
  }

  /** What the code of a slot's scan relies on at each of its calls. */
  lemma ScanSlotChecks(w: World, s: State, o: nat, k: int, field: nat)
    requires w.WellFormed() && Inv(w, s) && o in s.traced && k in w.Slots(o)
    requires field == Word(s.mem, w.Dest(o), k) && IsMmtkObject(w, s, field)
    ensures var v := w.Old(o, k);
            var s1 := Trace(w, s, field);
            && Forward(w, field) == w.Dest(v)
            && Inv(w, s1) && v in s1.traced && IsSlotTarget(w, v)
            && w.Dest(o) + 8 * k in s1.mem
  {
    SlotContent(w, s, o, k);
    ScanSlotStages(w, s, o, k);
    SlotReadable(w, Trace(w, s, field), o, k);
  }

  /** The source's debug assertions hold of an object whose lock words have just been scanned. */
  lemma ScannedLooksSound(w: World, s: State, v: nat)
    requires w.WellFormed() && Inv(w, s) && v in s.traced
    requires IsSlotTarget(w, v)
    ensures var s' := ScanLocks(w, s, w.Dest(v));
            LooksSound(w, s', v) && s'.mem.Keys == s.mem.Keys
  {
    ScanLocksKeepsInv(w, s, v);
    var s' := ScanLocks(w, s, w.Dest(v));
    HeaderReadable(w, s', v);
    SizeFacts(w, v);
    SizeOfImage(w, s', v);
  }

  lemma ScanSlotKeepsInv(w: World, s: State, o: nat, k: int)
    requires w.WellFormed() && Inv(w, s) && o in s.traced && k in w.Slots(o)
    ensures var s' := ScanSlot(w, s, w.Dest(o), k);
            && Inv(w, s') && s.traced <= s'.traced && s.queue <= s'.queue && s.weak <= s'.weak
            && Done(w, s', o, k)
            && (forall p, j :: p in s.traced && j in w.Slots(p) && Done(w, s, p, j) ==> Done(w, s', p, j))
  {
    SlotContent(w, s, o, k);
    var field, v := Word(s.mem, w.Dest(o), k), w.Old(o, k);
    if v in w.objects {
      ScanSlotStages(w, s, o, k);
      var s1 := Trace(w, s, field);
      var s2 := ScanLocks(w, s1, w.Dest(v));
      QuietTrans(w, s, s1, s2);
      forall p, j | p in s.traced && j in w.Slots(p) && Done(w, s, p, j)
        ensures Done(w, s2, p, j)
      {
        DoneStays(w, s, s2, p, j);
      }
      PushKeepsInv(w, s2, v);
      var s3 := PushIfWeak(w, s2, w.Dest(v));
      StoreKeepsInv(w, s3, o, k);
    }
  }

  lemma ScanSlotMemory(w: World, s: State, o: nat, k: int)
    requires w.WellFormed() && Inv(w, s) && o in s.traced && k in w.Slots(o) && w.Old(o, k) in w.objects
    ensures var s2 := ScanLocks(w, Trace(w, s, Word(s.mem, w.Dest(o), k)), w.Dest(w.Old(o, k)));
            ScanSlot(w, s, w.Dest(o), k).mem == Store(s2.mem, w.Dest(o), k, w.Dest(w.Old(o, k)))
  {
    SlotContent(w, s, o, k);
  }

  /** Scanning a slot writes to no other traced object. */
  lemma ScanSlotElsewhere(w: World, s: State, o: nat, k: int, p: nat)
    requires w.WellFormed() && Inv(w, s) && o in s.traced && k in w.Slots(o) && p in s.traced && p != o
    ensures forall j :: 0 <= j < w.Words(p) ==>
              Word(ScanSlot(w, s, w.Dest(o), k).mem, w.Dest(p), j) == Word(s.mem, w.Dest(p), j)
  {
    hide ScanSlot;
    SlotContent(w, s, o, k);
    var field, v := Word(s.mem, w.Dest(o), k), w.Old(o, k);
    if v in w.objects {
      ScanSlotStages(w, s, o, k);
      var s2 := ScanLocks(w, Trace(w, s, field), w.Dest(v));
      QuietTrans(w, s, Trace(w, s, field), s2);
      StoreKeepsObject(w, s2, o, k, p);
      ScanSlotMemory(w, s, o, k);
    } else {
      ScanSlotSkips(w, s, w.Dest(o), k);
    }
  }
}
