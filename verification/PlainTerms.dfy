// What a collection does, told from the tables it is given and from single words of memory,
// without the functions of the binding that decode them.
module PlainTerms {
  import opened Bits
  import opened Abi
  import opened Heap
  import opened Tracing
  import opened Invariant
  import opened ScanSteps
  import opened Collection
  import opened RootScanning
  import opened WeakPass

  // ---------- objects ----------

  /** The object's header word is the address of class c. */
  ghost predicate HasClass(w: World, o: nat, c: Rtti)
  {
    o in w.mem0 && w.mem0[o] in w.classes && w.classes[w.mem0[o]] == c
  }

  ghost predicate ArrayClass(w: World, c: Rtti)
  {
    w.cfg.arrayIdsMin <= c.id <= w.cfg.arrayIdsMax
  }

  ghost predicate WeakClass(w: World, c: Rtti)
  {
    w.cfg.weakRefIdsMin <= c.id <= w.cfg.weakRefIdsMax
  }

  /** The third word of the array is this length with this stride. */
  ghost predicate HasElements(w: World, o: nat, length: nat, stride: nat)
  {
    && length < 0x8000_0000 && stride < 0x8000_0000
    && o + 16 in w.mem0 && w.mem0[o + 16] == length + stride * 0x1_0000_0000
  }

  /** Entry i of the reference map, which comes before the first -1, names the k-th word; it is not the referent. */
  ghost predicate StrongField(w: World, c: Rtti, i: nat, k: int)
  {
    && i < |c.refMap| && -1 !in c.refMap[..i + 1] && k == 2 + c.refMap[i]
    && !(WeakClass(w, c) && c.refMap[i] == w.cfg.weakRefFieldOffset)
  }

  /** The k-th word is a strong field, or an element of an object array. */
  ghost predicate StrongSlot(w: World, o: nat, c: Rtti, k: int)
  {
    if ArrayClass(w, c) then
      c.id == w.cfg.objectArrayId && exists length: nat :: HasElements(w, o, length, 8) && 3 <= k < 3 + length
    else exists i :: StrongField(w, c, i, k)
  }

  /** The k-th word lies within the size of the object: what its class declares, or header and elements. */
  ghost predicate WithinSize(w: World, o: nat, c: Rtti, k: int)
  {
    && 0 <= k
    && if ArrayClass(w, c) then exists length: nat, stride: nat :: ArrayOf(w, o, length, stride, k)
       else 8 * k + 8 <= c.size
  }

  ghost predicate ArrayOf(w: World, o: nat, length: nat, stride: nat, k: int)
  {
    HasElements(w, o, length, stride) && 8 * k + 8 <= 24 + length * stride
  }

  lemma WordOfObject(w: World, o: nat, k: int)
    requires w.WellFormed() && o in w.objects && 0 <= k < w.Words(o)
    ensures o + 8 * k in w.mem0 && w.mem0[o + 8 * k] == w.Old(o, k) < TWO_64 && w.Dest(o) + 8 * k in w.mem0
  {
    assert w.ObjectOk(o) && w.DestOk(o) && Readable(w.mem0, o, k) && Readable(w.mem0, w.Dest(o), k);
  }

  lemma ClassOfObject(w: World, o: nat)
    requires w.WellFormed() && o in w.objects
    ensures HasClass(w, o, w.Class(o)) && w.mem0[o] == w.Old(o, 0)
  {
    SizeFacts(w, o);
    assert w.ObjectOk(o) && Readable(w.mem0, o, 0);
  }

  lemma LengthWordOk(w: World, o: nat)
    requires w.WellFormed() && o in w.objects && IsArrayId(w.cfg, w.Class(o).id)
    ensures var word := w.Old(o, 2);
            && o + 16 in w.mem0 && w.mem0[o + 16] == word < TWO_64
            && LengthOf(word) >= 0 && StrideOf(word) >= 0
            && (w.Class(o).id == w.cfg.objectArrayId ==> StrideOf(word) == 8)
  {
    SizeFacts(w, o);
    assert w.ObjectOk(o) && Readable(w.mem0, o, 2);
  }

  /** The third word of an array is put together from the length and stride it is decoded to. */
  lemma ElementsOfArray(w: World, o: nat)
    requires w.WellFormed() && o in w.objects && IsArrayId(w.cfg, w.Class(o).id)
    ensures LengthOf(w.Old(o, 2)) >= 0 && StrideOf(w.Old(o, 2)) >= 0
    ensures forall l: nat, s: nat ::
              HasElements(w, o, l, s) <==> l == LengthOf(w.Old(o, 2)) && s == StrideOf(w.Old(o, 2))
    ensures w.Class(o).id == w.cfg.objectArrayId ==> StrideOf(w.Old(o, 2)) == 8
  {
    hide LengthOf;
    hide StrideOf;
    hide World.WellFormed;
    hide World.Class;
    var word := w.Old(o, 2);
    LengthWordOk(w, o);
    FieldsAreI32(word);
    forall l: nat, s: nat
      ensures HasElements(w, o, l, s) <==> l == LengthOf(word) && s == StrideOf(word)
    {
      if l < 0x8000_0000 && s < 0x8000_0000 {
        LengthWordExactly(word, l, s);
      }
    }
  }

  lemma FieldsAreI32(word: int)
    ensures IsI32(LengthOf(word)) && IsI32(StrideOf(word))
  {
  }

  lemma BeforeTerminator(refMap: seq<int>, i: nat)
    requires i < |refMap|
    ensures -1 !in refMap[..i + 1] <==> i < MapLength(refMap)
  {
    var n := MapLength(refMap);
    if n <= i {
      assert refMap[..i + 1][n] == -1;
    }
  }

  lemma FieldSlotsInPlainTerms(w: World, c: Rtti, k: int)
    ensures k in FieldSlots(w.cfg, c, MapLength(c.refMap)) <==> exists i :: StrongField(w, c, i, k)
  {
    var n := MapLength(c.refMap);
    FieldSlotsExactly(w.cfg, c, n, k);
    if i :| StrongField(w, c, i, k) {
      BeforeTerminator(c.refMap, i);
    }
    if i: nat :| 0 <= i < n && k == 2 + c.refMap[i] && !(WeakClass(w, c) && c.refMap[i] == w.cfg.weakRefFieldOffset) {
      BeforeTerminator(c.refMap, i);
      assert StrongField(w, c, i, k);
    }
  }

  lemma ElementSlotsInPlainTerms(w: World, o: nat, k: int)
    requires w.WellFormed() && o in w.objects && IsArrayId(w.cfg, w.Class(o).id)
    ensures k in w.Slots(o) <==> StrongSlot(w, o, w.Class(o), k)
  {
    hide World.WellFormed;
    hide LengthOf;
    hide StrideOf;
    hide HasElements;
    ElementsOfArray(w, o);
    var length := LengthOf(w.Old(o, 2));
    if w.Class(o).id == w.cfg.objectArrayId {
      assert HasElements(w, o, length, 8);
      assert w.Slots(o) == ElementSlots(length);
      assert 3 <= k < 3 + length ==> ElementSlots(length)[k - 3] == k;
    }
  }

  /**
   * The slots a scan looks at are the strong slots: the map entries up to the terminator, but for the
   * one referent field of a weak reference, or all elements of an object array, and nothing of another array.
   */
  lemma SlotsInPlainTerms(w: World, o: nat, k: int)
    requires w.WellFormed() && o in w.objects
    ensures HasClass(w, o, w.Class(o))
    ensures k in w.Slots(o) <==> StrongSlot(w, o, w.Class(o), k)
  {
    var c := w.Class(o);
    ClassOfObject(w, o);
    if IsArrayId(w.cfg, c.id) {
      ElementSlotsInPlainTerms(w, o, k);
    } else {
      FieldSlotsInPlainTerms(w, c, k);
    }
  }

  /** Every word within the declared size is one the collector copies. */
  lemma SizeInPlainTerms(w: World, o: nat, k: int)
    requires w.WellFormed() && o in w.objects && WithinSize(w, o, w.Class(o), k)
    ensures 0 <= k < w.Words(o) && o + 8 * k in w.mem0 && w.mem0[o + 8 * k] == w.Old(o, k)
    ensures w.Dest(o) + 8 * k in w.mem0
  {
    var c := w.Class(o);
    ClassOfObject(w, o);
    SizeFacts(w, o);
    assert w.ObjectOk(o) && w.DestOk(o) && w.ClassOk(w.Old(o, 0));
    if IsArrayId(w.cfg, c.id) {
      ElementsOfArray(w, o);
      ArraySizeBounds(w.cfg, w.Old(o, 2));
      var length, stride :| ArrayOf(w, o, length, stride, k);
      assert length == LengthOf(w.Old(o, 2)) && stride == StrideOf(w.Old(o, 2));
    } else {
      PlainSizeBounds(w.cfg, c);
    }
    WordOfObject(w, o, k);
  }

  /** A strong slot lies within the declared size. */
  lemma StrongSlotWithin(w: World, o: nat, k: int)
    requires w.WellFormed() && o in w.objects
    ensures StrongSlot(w, o, w.Class(o), k) ==> WithinSize(w, o, w.Class(o), k)
  {
    var c := w.Class(o);
    assert w.ObjectOk(o) && w.ClassOk(w.Old(o, 0));
    if ArrayClass(w, c) {
      if length: nat :| HasElements(w, o, length, 8) && 3 <= k < 3 + length {
        assert ArrayOf(w, o, length, 8, k);
      }
    } else if i :| StrongField(w, c, i, k) {
      BeforeTerminator(c.refMap, i);
    }
  }

  // ---------- a finished collection ----------

  /**
   * The word k words into the object holds what it held, or the new address of the valid object
   * a strong slot refers to, which has been traced.
   */
  ghost predicate WordAfter(w: World, mem: Memory, traced: set<nat>, o: nat, c: Rtti, k: int)
  {
    var before, after := o + 8 * k, w.Dest(o) + 8 * k;
    && before in w.mem0 && after in mem
    && if StrongSlot(w, o, c, k) && w.mem0[before] in w.objects
       then w.mem0[before] in traced && mem[after] == w.Dest(w.mem0[before])
       else mem[after] == w.mem0[before]
  }

  ghost predicate ObjectAfter(w: World, mem: Memory, traced: set<nat>, o: nat)
  {
    && o in w.mem0 && w.mem0[o] in w.classes
    && var c := w.classes[w.mem0[o]];
       forall k :: WithinSize(w, o, c, k) || StrongSlot(w, o, c, k) ==> WordAfter(w, mem, traced, o, c, k)
  }

  /** A strong slot of a traced object refers to the valid object v. */
  ghost predicate RefersTo(w: World, traced: set<nat>, p: nat, k: int, v: nat)
  {
    && p in traced && v in w.objects && p in w.mem0 && w.mem0[p] in w.classes
    && StrongSlot(w, p, w.classes[w.mem0[p]], k) && p + 8 * k in w.mem0 && w.mem0[p + 8 * k] == v
  }

  /** The lock word of v's class, or v's own, is the even address x with the lowest bit set. */
  ghost predicate LockedBy(w: World, v: nat, x: nat)
  {
    && v in w.mem0 && w.mem0[v] in w.locks0 && v + 8 in w.mem0
    && x % 2 == 0 && (w.locks0[w.mem0[v]] == x + 1 || w.mem0[v + 8] == x + 1)
  }

  ghost predicate KeptThrough(w: World, traced: set<nat>, p: nat, k: int, v: nat, x: nat)
  {
    RefersTo(w, traced, p, k, v) && (x == v || LockedBy(w, v, x))
  }

  /** a is the new address of a weak reference v that is a root or that a traced object refers to. */
  ghost predicate FoundWeak(w: World, traced: set<nat>, a: nat, v: nat)
  {
    && v in w.mem0 && w.mem0[v] in w.classes && WeakClass(w, w.classes[w.mem0[v]]) && w.Dest(v) == a
    && (v in w.roots || exists p, k :: RefersTo(w, traced, p, k, v))
  }

  /** What a collection leaves: every word of every traced object, which objects these are, and the weak stack. */
  ghost predicate HeapAfter(w: World, mem: Memory, traced: set<nat>, weak: seq<nat>)
  {
    && (forall o :: o in traced ==> ObjectAfter(w, mem, traced, o))
    && (forall x :: x in traced <==> x in w.roots || exists p, k, v :: KeptThrough(w, traced, p, k, v, x))
    && (forall a :: a in weak <==> a in w.leftover || exists v :: FoundWeak(w, traced, a, v))
  }

  lemma TracedFacts(w: World, s: State, o: nat)
    requires Finished(w, s) && o in s.traced
    ensures o in w.objects && s.mem.Keys == w.mem0.Keys && Reach(w, o)
  {
  }

  lemma WordOfTraced(w: World, s: State, o: nat, k: int)
    requires w.WellFormed() && Finished(w, s) && o in s.traced && WithinSize(w, o, w.Class(o), k)
    ensures WordAfter(w, s.mem, s.traced, o, w.Class(o), k)
  {
    hide World.WellFormed;
    hide World.Slots;
    hide World.Class;
    hide StrongSlot;
    hide WithinSize;
    hide Finished;
    TracedFacts(w, s, o);
    SizeInPlainTerms(w, o, k);
    SlotsInPlainTerms(w, o, k);
    ForwardedWord(w, s, o, k);
  }

  lemma ForwardedWord(w: World, s: State, o: nat, k: int)
    requires w.WellFormed() && Finished(w, s) && o in s.traced && 0 <= k < w.Words(o)
    ensures Word(s.mem, w.Dest(o), k) == Forwarded(w, o, k)
    ensures k in w.Slots(o) && w.Old(o, k) in w.objects ==> w.Old(o, k) in s.traced
  {
    hide World.WellFormed;
    hide World.Slots;
    hide Finished;
    FinishedObject(w, s, o);
    if k in w.Slots(o) && w.Old(o, k) in w.objects {
      TracedIsReachable(w, s, w.Old(o, k));
    }
  }

  lemma ObjectOfTraced(w: World, s: State, o: nat)
    requires w.WellFormed() && Finished(w, s) && o in s.traced
    ensures ObjectAfter(w, s.mem, s.traced, o)
  {
    hide World.WellFormed;
    hide World.Class;
    hide WordAfter;
    hide WithinSize;
    hide StrongSlot;
    assert o in w.objects;
    ClassOfObject(w, o);
    forall k | WithinSize(w, o, w.Class(o), k) || StrongSlot(w, o, w.Class(o), k)
      ensures WordAfter(w, s.mem, s.traced, o, w.Class(o), k)
    {
      StrongSlotWithin(w, o, k);
      WordOfTraced(w, s, o, k);
    }
  }

  lemma KeepsInPlainTerms(w: World, v: nat, x: nat)
    requires w.WellFormed() && v in w.objects
    ensures x in Keeps(w, v) <==> x == v || LockedBy(w, v, x)
  {
    hide World.WellFormed;
    LockWordsOf(w, v);
    InflatedLock(w.Old(v, 1), x);
    InflatedLock(w.Lock0(w.Old(v, 0)), x);
  }

  lemma InflatedLock(lock: nat, x: nat)
    requires lock < TWO_64
    ensures FieldIsInflatedLock(lock) && FieldAlignedLockRef(lock) == x <==> x % 2 == 0 && lock == x + 1
  {
    LockWordArithmetic(lock);
  }

  lemma LockWordsOf(w: World, v: nat)
    requires w.WellFormed() && v in w.objects
    ensures v in w.mem0 && w.mem0[v] == w.Old(v, 0) && w.mem0[v] in w.locks0
    ensures v + 8 in w.mem0 && w.mem0[v + 8] == w.Old(v, 1) < TWO_64
    ensures w.locks0[w.mem0[v]] == w.Lock0(w.Old(v, 0)) < TWO_64
  {
    SizeFacts(w, v);
    WordOfObject(w, v, 0);
    WordOfObject(w, v, 1);
    assert w.ObjectOk(v) && w.ClassOk(w.Old(v, 0));
  }

  lemma RefersInPlainTerms(w: World, s: State, p: nat, k: int, v: nat)
    requires w.WellFormed() && Finished(w, s)
    ensures RefersTo(w, s.traced, p, k, v) <==> v in w.objects && SlotRefersTo(w, p, k, v)
  {
    hide World.WellFormed;
    hide World.Slots;
    hide World.Class;
    hide StrongSlot;
    hide Finished;
    TracedIsReachable(w, s, p);
    if p in s.traced {
      TracedFacts(w, s, p);
      SlotsInPlainTerms(w, p, k);
      ClassOfObject(w, p);
      if k in w.Slots(p) {
        SlotsInside(w, p, k);
        WordOfObject(w, p, k);
      }
    }
  }

  lemma TracedInPlainTerms(w: World, s: State, x: nat)
    requires w.WellFormed() && Finished(w, s)
    ensures x in s.traced <==> x in w.roots || exists p, k, v :: KeptThrough(w, s.traced, p, k, v, x)
  {
    hide World.WellFormed;
    hide Finished;
    hide SlotRefersTo;
    hide RefersTo;
    hide Keeps;
    hide LockedBy;
    TracedIsReachable(w, s, x);
    if x !in w.roots && Retained(w, x) {
      var v :| IsSlotTarget(w, v) && x in Keeps(w, v);
      var p, k :| SlotRefersTo(w, p, k, v);
      RefersInPlainTerms(w, s, p, k, v);
      KeepsInPlainTerms(w, v, x);
      assert KeptThrough(w, s.traced, p, k, v, x);
    }
    if p, k, v :| KeptThrough(w, s.traced, p, k, v, x) {
      RefersInPlainTerms(w, s, p, k, v);
      KeepsInPlainTerms(w, v, x);
      assert IsSlotTarget(w, v);
    }
  }

  lemma WeakInPlainTerms(w: World, s: State, a: nat)
    requires w.WellFormed() && Finished(w, s)
    ensures Discovered(w, a) <==> exists v :: FoundWeak(w, s.traced, a, v)
  {
    hide World.Class;
    hide Finished;
    hide SlotRefersTo;
    hide RefersTo;
    if v :| DiscoveredAs(w, a, v) {
      ClassOfObject(w, v);
      if v !in w.roots {
        var p, k :| SlotRefersTo(w, p, k, v);
        RefersInPlainTerms(w, s, p, k, v);
      }
      assert FoundWeak(w, s.traced, a, v);
    }
    if v :| FoundWeak(w, s.traced, a, v) {
      if v !in w.roots {
        var p, k :| RefersTo(w, s.traced, p, k, v);
        RefersInPlainTerms(w, s, p, k, v);
      }
      ClassOfObject(w, v);
      assert DiscoveredAs(w, a, v);
    }
  }

  /** What a finished collection leaves, word by word, whatever the order of its run. */
  lemma FinishedInPlainTerms(w: World, s: State)
    requires w.WellFormed() && Finished(w, s)
    requires forall a :: a in s.weak <==> a in w.leftover || Discovered(w, a)
    ensures HeapAfter(w, s.mem, s.traced, s.weak)
  {
    hide World.WellFormed;
    hide Finished;
    hide ObjectAfter;
    hide KeptThrough;
    hide FoundWeak;
    forall o | o in s.traced
      ensures ObjectAfter(w, s.mem, s.traced, o)
    {
      ObjectOfTraced(w, s, o);
    }
    forall x
      ensures x in s.traced <==> x in w.roots || exists p, k, v :: KeptThrough(w, s.traced, p, k, v, x)
    {
      TracedInPlainTerms(w, s, x);
    }
    forall a
      ensures Discovered(w, a) <==> exists v :: FoundWeak(w, s.traced, a, v)
    {
      WeakInPlainTerms(w, s, a);
    }
  }

  /**
   * Every run that empties the queue leaves each traced object's words where its plan says, strong
   * slots forwarded and all others as they were; traces the roots, what strong slots of traced objects
   * refer to and the monitors of these; and adds to the weak stack exactly the weak references among
   * roots and slot targets.
   */
  lemma CollectionInPlainTerms(w: World, weak: seq<nat>, roots: seq<nat>, picks: seq<nat>)
    requires IsCollection(w, weak, roots, picks) && Collect(w, weak, roots, picks).queue == []
    ensures var s := Collect(w, weak, roots, picks); HeapAfter(w, s.mem, s.traced, s.weak)
  {
    CollectionFinishes(w, weak, roots, picks);
    WeakReferencesDiscovered(w, weak, roots, picks);
    FinishedInPlainTerms(w, Collect(w, weak, roots, picks));
  }

  /** Every entry of the map but the referent of a weak reference is a field that is followed and updated. */
  lemma FieldForwarded(w: World, s: State, o: nat, c: Rtti, i: nat, v: nat)
    requires w.WellFormed() && Finished(w, s) && o in s.traced && HasClass(w, o, c) && v in w.objects
    requires !(w.cfg.arrayIdsMin <= c.id <= w.cfg.arrayIdsMax) && i < |c.refMap| && -1 !in c.refMap[..i + 1]
    requires !(w.cfg.weakRefIdsMin <= c.id <= w.cfg.weakRefIdsMax) || c.refMap[i] != w.cfg.weakRefFieldOffset
    requires o + 16 + 8 * c.refMap[i] in w.mem0 && w.mem0[o + 16 + 8 * c.refMap[i]] == v
    ensures var field := w.Dest(o) + 16 + 8 * c.refMap[i];
            v in s.traced && field in s.mem && s.mem[field] == w.Dest(v)
  {
    hide World.WellFormed;
    hide Finished;
    hide WordAfter;
    hide WithinSize;
    var k := 2 + c.refMap[i];
    ObjectOfTraced(w, s, o);
    assert StrongField(w, c, i, k);
    assert ObjectAfter(w, s.mem, s.traced, o) && StrongSlot(w, o, c, k);
    SlotForwarded(w, s.mem, s.traced, o, c, k, v);
  }

  /** Every element of an object array of the length in its header is followed and updated. */
  lemma ElementForwarded(w: World, s: State, o: nat, c: Rtti, length: nat, i: nat, v: nat)
    requires w.WellFormed() && Finished(w, s) && o in s.traced && HasClass(w, o, c) && v in w.objects
    requires w.cfg.arrayIdsMin <= c.id <= w.cfg.arrayIdsMax && c.id == w.cfg.objectArrayId
    requires i < length < 0x8000_0000 && o + 16 in w.mem0 && w.mem0[o + 16] == length + 8 * 0x1_0000_0000
    requires o + 24 + 8 * i in w.mem0 && w.mem0[o + 24 + 8 * i] == v
    ensures var element := w.Dest(o) + 24 + 8 * i;
            v in s.traced && element in s.mem && s.mem[element] == w.Dest(v)
  {
    hide World.WellFormed;
    hide Finished;
    hide WordAfter;
    hide WithinSize;
    var k := 3 + i;
    ObjectOfTraced(w, s, o);
    assert HasElements(w, o, length, 8);
    assert ObjectAfter(w, s.mem, s.traced, o) && StrongSlot(w, o, c, k);
    SlotForwarded(w, s.mem, s.traced, o, c, k, v);
  }

  lemma SlotForwarded(w: World, mem: Memory, traced: set<nat>, o: nat, c: Rtti, k: int, v: nat)
    requires WordAfter(w, mem, traced, o, c, k) && StrongSlot(w, o, c, k)
    requires o + 8 * k in w.mem0 && w.mem0[o + 8 * k] == v && v in w.objects
    ensures v in traced && w.Dest(o) + 8 * k in mem && mem[w.Dest(o) + 8 * k] == w.Dest(v)
  {
  }

  /** The referent of a weak reference is no slot: it is copied as it was, and may be left dangling. */
  lemma ReferentKept(w: World, s: State, o: nat, c: Rtti)
    requires w.WellFormed() && Finished(w, s) && o in s.traced && HasClass(w, o, c)
    requires !(w.cfg.arrayIdsMin <= c.id <= w.cfg.arrayIdsMax)
    requires w.cfg.weakRefIdsMin <= c.id <= w.cfg.weakRefIdsMax
    requires 0 <= w.cfg.weakRefFieldOffset && 16 + 8 * w.cfg.weakRefFieldOffset + 8 <= c.size
    ensures var field := 16 + 8 * w.cfg.weakRefFieldOffset;
            && o + field in w.mem0 && w.Dest(o) + field in s.mem
            && s.mem[w.Dest(o) + field] == w.mem0[o + field]
  {
    hide World.WellFormed;
    hide Finished;
    var k := 2 + w.cfg.weakRefFieldOffset;
    ObjectOfTraced(w, s, o);
    assert ObjectAfter(w, s.mem, s.traced, o) && WithinSize(w, o, c, k);
    assert !StrongSlot(w, o, c, k);
  }

  // ---------- one slot ----------

  /**
   * In any state of a trace, the word in a strong slot passes the guard, a range test and the tracer's
   * test, if and only if the slot held a valid object; then that is traced and the slot gets its new
   * address, and otherwise nothing happens.
   */
  lemma SlotGuardInPlainTerms(w: World, s: State, o: nat, k: int)
    requires w.WellFormed() && Inv(w, s) && o in s.traced && StrongSlot(w, o, w.Class(o), k)
    ensures var slot := w.Dest(o) + 8 * k;
            && o + 8 * k in w.mem0 && slot in s.mem
            && var v, field, s' := w.mem0[o + 8 * k], s.mem[slot], ScanSlot(w, s, w.Dest(o), k);
               && (w.cfg.heapStart <= field < w.cfg.heapEnd && IsMmtkObject(w, s, field) <==> v in w.objects)
               && (v in w.objects ==> v in s'.traced && slot in s'.mem && s'.mem[slot] == w.Dest(v))
               && (v !in w.objects ==> s' == s)
  {
    hide World.WellFormed;
    hide World.Class;
    hide World.Slots;
    hide StrongSlot;
    hide ScanSlot;
    assert o in w.objects;
    SlotsInPlainTerms(w, o, k);
    SlotsInside(w, o, k);
    SlotReadable(w, s, o, k);
    SlotContent(w, s, o, k);
    ScanSlotKeepsInv(w, s, o, k);
    WordOfObject(w, o, k);
    SlotTargetInRange(w, s, o, k);
    if w.Old(o, k) !in w.objects {
      ScanSlotSkips(w, s, w.Dest(o), k);
    }
  }

  lemma SlotTargetInRange(w: World, s: State, o: nat, k: int)
    requires w.WellFormed() && Inv(w, s) && o in s.traced && k in w.Slots(o)
    ensures var field := Word(s.mem, w.Dest(o), k);
            w.Old(o, k) in w.objects ==> w.cfg.heapStart <= field < w.cfg.heapEnd
  {
    SlotContent(w, s, o, k);
    if w.Old(o, k) in w.objects {
      assert w.ObjectOk(w.Old(o, k)) && w.DestOk(w.Old(o, k));
    }
  }

  // ---------- the monitors a root scan follows ----------

  /** Marking an object goes on to the valid objects that its class's or its own lock word names in an odd word. */
  lemma MonitorsInPlainTerms(w: World, o: nat, m: nat)
    requires w.WellFormed() && o in w.objects
    ensures m in Monitors(w, o) <==> w.cfg.heapStart <= m < w.cfg.heapEnd && m in w.objects && LockedBy(w, o, m)
  {
    hide World.WellFormed;
    LockWordsOf(w, o);
    InflatedLock(w.Old(o, 1), m);
    InflatedLock(w.Lock0(w.Old(o, 0)), m);
  }

  // ---------- the pass over the weak references ----------

  /** An entry of the stack, or what its referent field holds, 16 bytes of header and the offset after it. */
  ghost predicate NamedBy(w: World, mem: Memory, a: nat, x: nat)
  {
    var field := a + 16 + 8 * w.cfg.weakRefFieldOffset;
    x == a || (field in mem && mem[field] == x)
  }

  lemma PassInPlainTerms(w: World, s: State, s': State)
    requires w.WellFormed() && Finished(w, s) && PassOutcome(w, s, s')
    ensures forall x :: x in s'.traced <==>
                        x in s.traced || (x in w.objects && exists a :: a in s.weak && NamedBy(w, s.mem, a, x))
  {
    forall x | x in w.objects
      ensures OnStack(w, s.mem, s.weak, x) <==> exists a :: a in s.weak && NamedBy(w, s.mem, a, x)
    {
      assert w.ObjectOk(x);
      if a :| a in s.weak && (x == a || x == ReferentOf(w, s.mem, a)) {
        assert NamedBy(w, s.mem, a, x);
      }
      if a :| a in s.weak && NamedBy(w, s.mem, a, x) {
        assert x == a || x == ReferentOf(w, s.mem, a);
      }
    }
  }
}
