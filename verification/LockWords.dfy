// What scanning does to lock words: class locks are retagged, stably; an object's own
// inflated lock is not, because its new value is stored into the class.
module LockWords {
  import opened Bits
  import opened Abi
  import opened Heap
  import opened Tracing
  import opened Invariant
  import opened ScanSteps

  /** What the function is for: each of the two words names the forwarded monitor, if it named one. */
  ghost predicate BothLocksForwarded(w: World, s: State, s': State, v: nat)
  {
    && Word(s'.mem, w.Dest(v), 1) == Retagged(w, w.Old(v, 1))
    && Lock(s'.locks, w.Old(v, 0)) == Retagged(w, Lock(s.locks, w.Old(v, 0)))
  }

  lemma RetaggedByOrigin(w: World, s: State, lock: nat, origin: nat)
    requires w.WellFormed() && Inv(w, s) && FieldIsInflatedLock(lock) && Names(w, s, FieldAlignedLockRef(lock), origin)
    ensures Retagged(w, lock) == FieldInflateLockRef(w.Dest(origin)) == w.Dest(origin) + 1
  {
    CopyIsNoObject(w, origin);
    TagOfDest(w, origin);
  }

  /** The class lock word after a scan: the own monitor's if the own lock is inflated, else the retagged old value. */
  lemma ClassLockAfterScan(w: World, s: State, v: nat)
    requires w.WellFormed() && Inv(w, s) && v in s.traced
    requires IsSlotTarget(w, v)
    ensures var s' := ScanLocks(w, s, w.Dest(v));
            && Word(s'.mem, w.Dest(v), 1) == w.Old(v, 1)
            && Lock(s'.locks, w.Old(v, 0)) ==
               if FieldIsInflatedLock(w.Old(v, 1)) then Retagged(w, w.Old(v, 1))
               else Retagged(w, Lock(s.locks, w.Old(v, 0)))
  {
    var r, own := w.Old(v, 0), w.Old(v, 1);
    HeaderOfImage(w, s, v);
    var origin := RttiLockOrigin(w, s, v);
    RetraceLockKeepsInv(w, s, r, Lock(s.locks, r), origin);
    var s1 := RetraceLock(w, s, r, Lock(s.locks, r));
    if FieldIsInflatedLock(Lock(s.locks, r)) {
      RetaggedByOrigin(w, s, Lock(s.locks, r), origin);
    }
    HeaderOfImage(w, s1, v);
    RetraceRttiLock(w, s, v);
    OwnLockRetraceable(w, s1, v);
    RetraceLockKeepsInv(w, s1, r, own, FieldAlignedLockRef(own));
    if FieldIsInflatedLock(own) {
      RetaggedByOrigin(w, s1, own, FieldAlignedLockRef(own));
    }
    HeaderOfImage(w, ScanLocks(w, s, w.Dest(v)), v);
  }

  lemma OddLock(w: World, v: nat)
    requires w.WellFormed() && v in w.objects && FieldIsInflatedLock(w.Old(v, 1))
    ensures w.Old(v, 1) == FieldAlignedLockRef(w.Old(v, 1)) + 1
    ensures FieldAlignedLockRef(w.Old(v, 1)) in w.objects
  {
    SizeFacts(w, v);
    assert w.ObjectOk(v);
    LockWordArithmetic(w.Old(v, 1));
  }

  lemma InflatedIsOdd(w: World, s: State, r: nat, origin: nat)
    requires w.WellFormed() && Inv(w, s) && r in w.classes && Retraceable(w, s, r, Lock(s.locks, r), origin)
    ensures Lock(s.locks, r) < TWO_64
    ensures FieldIsInflatedLock(Lock(s.locks, r)) ==> Lock(s.locks, r) == FieldAlignedLockRef(Lock(s.locks, r)) + 1
    ensures !FieldIsInflatedLock(Lock(s.locks, r)) ==> Lock(s.locks, r) % 2 == 0
  {
    assert w.ClassOk(r) && LockOk(w, s.traced, r, Lock(s.locks, r));
    if Lock(s.locks, r) != w.Lock0(r) {
      var m :| LockTracedAs(w, s.traced, r, Lock(s.locks, r), m);
      TagOfDest(w, m);
      assert w.DestOk(m);
    }
    LockWordArithmetic(Lock(s.locks, r));
  }

  /**
   * Scanning the lock words forwards both of them exactly when the object's own lock is
   * thin, or is the very word the class already holds and names a monitor that stays.
   */
  lemma LocksForwardedExactly(w: World, s: State, v: nat)
    requires w.WellFormed() && Inv(w, s) && v in s.traced
    requires IsSlotTarget(w, v)
    ensures var own := w.Old(v, 1);
            BothLocksForwarded(w, s, ScanLocks(w, s, w.Dest(v)), v) <==>
            !FieldIsInflatedLock(own) ||
            (Lock(s.locks, w.Old(v, 0)) == own && !w.Moves(FieldAlignedLockRef(own)))
  {
    var r, own := w.Old(v, 0), w.Old(v, 1);
    ClassLockAfterScan(w, s, v);
    HeaderOfImage(w, s, v);
    if FieldIsInflatedLock(own) {
      OddLock(w, v);
      var m := FieldAlignedLockRef(own);
      SlotTargetKeeps(w, v);
      assert m in Keeps(w, v);
      assert Names(w, s, m, m);
      RetaggedByOrigin(w, s, own, m);
      SameLockExactly(w, s, v);
    }
  }

  /** The class lock word keeps its meaning only if it names the own monitor's new address already. */
  lemma SameLockExactly(w: World, s: State, v: nat)
    requires w.WellFormed() && Inv(w, s) && v in s.traced && FieldIsInflatedLock(w.Old(v, 1))
    requires IsSlotTarget(w, v)
    ensures var own, l := w.Old(v, 1), Lock(s.locks, w.Old(v, 0));
            !w.Moves(FieldAlignedLockRef(own)) ==> (Retagged(w, l) == own <==> l == own)
  {
    var r, own := w.Old(v, 0), w.Old(v, 1);
    var l, m := Lock(s.locks, r), FieldAlignedLockRef(own);
    HeaderOfImage(w, s, v);
    OddLock(w, v);
    var origin := RttiLockOrigin(w, s, v);
    InflatedIsOdd(w, s, r, origin);
    CopyIsNoObject(w, m);
    assert w.DestOk(m);
    if FieldIsInflatedLock(l) && !w.Moves(m) {
      RetaggedByOrigin(w, s, l, origin);
      CopyIsNoObject(w, origin);
      if w.Dest(origin) == w.Dest(m) {
        DestInjective(w, origin, m);
      }
    }
  }

  /** Scanning the same object's lock words again changes nothing. */
  lemma ScanLocksIsStable(w: World, s: State, v: nat)
    requires w.WellFormed() && Inv(w, s) && v in s.traced
    requires IsSlotTarget(w, v)
    ensures var s' := ScanLocks(w, s, w.Dest(v));
            ScanLocks(w, s', w.Dest(v)) == s'
  {
    var r, own := w.Old(v, 0), w.Old(v, 1);
    var s' := ScanLocks(w, s, w.Dest(v));
    ScanLocksKeepsInv(w, s, v);
    ClassLockAfterScan(w, s, v);
    HeaderOfImage(w, s', v);
    var l' := Lock(s'.locks, r);
    if FieldIsInflatedLock(own) {
      var m := FieldAlignedLockRef(own);
      SlotTargetKeeps(w, v);
      assert m in Keeps(w, v);
      assert Names(w, s, m, m);
      RetaggedByOrigin(w, s, own, m);
      RetraceIsNoOp(w, s', r, l', m);
      RetraceIsNoOp(w, s', r, own, m);
    } else {
      HeaderOfImage(w, s, v);
      var origin := RttiLockOrigin(w, s, v);
      RetraceLockKeepsInv(w, s, r, Lock(s.locks, r), origin);
      if FieldIsInflatedLock(Lock(s.locks, r)) {
        RetaggedByOrigin(w, s, Lock(s.locks, r), origin);
        HeaderOfImage(w, RetraceLock(w, s, r, Lock(s.locks, r)), v);
        RetraceIsNoOp(w, s', r, l', origin);
      }
    }
  }

  lemma RetraceIsNoOp(w: World, s: State, r: nat, lock: nat, m: nat)
    requires w.WellFormed() && Inv(w, s) && r in w.classes && m in s.traced
    requires Lock(s.locks, r) == FieldInflateLockRef(w.Dest(m))
    requires FieldIsInflatedLock(lock) ==> FieldAlignedLockRef(lock) == m || lock == Lock(s.locks, r)
    ensures RetraceLock(w, s, r, lock) == s
  {
    TagOfDest(w, m);
    TraceImage(w, s, m);
    assert w.ClassOk(r);
    assert r in s.locks;
    assert s.locks[r := s.locks[r]] == s.locks;
  }
}
