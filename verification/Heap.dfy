// The heap at the start of a collection, and word-addressed memory.
module Heap {
  import opened Bits
  import opened Abi

  /** Word-addressed memory: keys are byte addresses of words. */
  type Memory = map<int, nat>

  /** The k-th word counted from `base`. */
  function Word(mem: Memory, base: int, k: int): nat
  {
    var address := base + 8 * k;
    if address in mem then mem[address] else 0
  }

  function Store(mem: Memory, base: int, k: int, value: nat): Memory
  {
    var address := base + 8 * k;
    if address in mem then mem[address := value] else mem
  }

  ghost predicate Apart(a: int, n: int, b: int, m: int)
  {
    a + 8 * n <= b || b + 8 * m <= a
  }

  const NO_CLASS := Rtti(0, 16, [LAST_FIELD_OFFSET])

  /**
   * Everything a collection takes as given. `mem0` and `locks0` are the memory and
   * the class lock words when it starts; `objects` are the addresses whose
   * valid-object bit is set; `plan` names, for each of them, where the collector's
   * policy and allocator would put it (its own address when it is not moved).
   * Quantifying over `plan` covers every policy and every allocator. `leftover` is what
   * earlier collections have left on the weak stack, which nothing empties.
   */
  datatype World = World(
    cfg: Config, classes: map<nat, Rtti>, objects: set<nat>, plan: map<nat, nat>,
    mem0: Memory, locks0: map<nat, nat>, roots: set<nat>, leftover: seq<nat>)
  {
    function ClassOfWord(rtti: nat): Rtti
    {
      if rtti in classes then classes[rtti] else NO_CLASS
    }

    function ClassAt(mem: Memory, a: int): Rtti { ClassOfWord(Word(mem, a, 0)) }

    function SizeAs(mem: Memory, a: int, rtti: nat): nat
    {
      var c := ClassOfWord(rtti);
      if IsArrayId(cfg, c.id) then ArraySize(cfg, Word(mem, a, 2)) else PlainSize(cfg, c)
    }

    /** `Object::size`: reads the class through a clean header. */
    function SizeAt(mem: Memory, a: int): nat { SizeAs(mem, a, Word(mem, a, 0)) }

    /** `Object::size_for_copy`: masks the header first. */
    function SizeForCopyAt(mem: Memory, a: int): nat { SizeAs(mem, a, AlignPtr(cfg, Word(mem, a, 0))) }

    function Class(o: nat): Rtti { ClassAt(mem0, o) }

    /** Number of words of an object. */
    function Words(o: nat): nat { SizeAt(mem0, o) / 8 }

    function Dest(o: nat): nat { if o in plan then plan[o] else o }

    predicate Moves(o: nat) { Dest(o) != o }

    /** Word positions of the slots a scan looks at, in the order it looks at them. */
    function SlotsOf(mem: Memory, a: int): seq<int>
    {
      var c := ClassAt(mem, a);
      if IsArrayId(cfg, c.id) then
        if c.id == cfg.objectArrayId && LengthOf(Word(mem, a, 2)) >= 0
        then ElementSlots(LengthOf(Word(mem, a, 2))) else []
      else FieldSlots(cfg, c, MapLength(c.refMap))
    }

    function Slots(o: nat): seq<int> { SlotsOf(mem0, o) }

    /** The class lock word a collection starts with. */
    function Lock0(rtti: nat): nat { if rtti in locks0 then locks0[rtti] else 0 }

    predicate IsWeak(o: nat) { IsWeakRefId(cfg, Class(o).id) }

    /** What the k-th word of an object held when the collection started. */
    function Old(o: nat, k: int): nat { Word(mem0, o, k) }

    ghost predicate ClassOk(rtti: nat)
      requires rtti in classes
    {
      var c := classes[rtti];
      && 0 < rtti < TWO_64 && rtti % Alignment(cfg) == 0
      && (!IsArrayId(cfg, c.id) ==>
            && 16 <= c.size < 0x8000_0000
            && LAST_FIELD_OFFSET in c.refMap
            && (forall i :: 0 <= i < MapLength(c.refMap) ==>
                  0 <= c.refMap[i] && 16 + 8 * c.refMap[i] + 8 <= c.size))
      && rtti in locks0 && Lock0(rtti) < TWO_64
      && (FieldIsInflatedLock(Lock0(rtti)) ==> FieldAlignedLockRef(Lock0(rtti)) in objects)
    }

    ghost predicate ObjectOk(o: nat)
    {
      && 0 < o && cfg.heapStart <= o < cfg.heapEnd && o % 8 == 0
      && Old(o, 0) in classes
      && (IsArrayId(cfg, Class(o).id) ==>
            && LengthOf(Old(o, 2)) >= 0 && StrideOf(Old(o, 2)) >= 0
            && (Class(o).id == cfg.objectArrayId ==> StrideOf(Old(o, 2)) == 8))
      && (forall k :: 0 <= k < Words(o) ==> Readable(mem0, o, k) && Old(o, k) < TWO_64)
      && (FieldIsInflatedLock(Old(o, 1)) ==> FieldAlignedLockRef(Old(o, 1)) in objects)
      // no slot dangles into memory the allocator may hand out
      && (forall k :: k in Slots(o) && Old(o, k) !in objects ==> NoDest(Old(o, k)))
    }

    ghost predicate NoDest(v: nat)
    {
      forall o :: o in objects ==> Dest(o) != v
    }

    ghost predicate DestOk(o: nat)
    {
      && cfg.heapStart <= Dest(o) < cfg.heapEnd && Dest(o) % 8 == 0 && 0 < Dest(o) < TWO_64 - 8
      && (forall k :: 0 <= k < Words(o) ==> Readable(mem0, Dest(o), k))
    }

    ghost predicate Separate(o: nat, p: nat)
    {
      && (o != p ==> Apart(o, Words(o), p, Words(p)))
      && (o != p ==> Apart(Dest(o), Words(o), Dest(p), Words(p)))
      && (o != p || Moves(o) ==> Apart(Dest(o), Words(o), p, Words(p)))
    }

    /** The heap is as the runtime keeps it, and the plan hands out free, disjoint memory. */
    ghost predicate WellFormed()
    {
      && 3 <= cfg.alignLog
      && (forall r {:trigger ClassOk(r)} :: r in classes ==> ClassOk(r))
      && (forall o {:trigger ObjectOk(o)} :: o in objects ==> ObjectOk(o))
      && (forall o {:trigger DestOk(o)} :: o in objects ==> DestOk(o))
      && (forall o, p {:trigger Separate(o, p)} :: o in objects && p in objects ==> Separate(o, p))
      && roots <= objects
      && (forall r :: r in roots ==> !Moves(r))
    }
  }

  predicate Readable(mem: Memory, base: int, k: int)
  {
    base + 8 * k in mem
  }

  // ---------- memory ----------

  lemma StoreWord(mem: Memory, base: int, k: int, value: nat, b: int, j: int)
    ensures Word(Store(mem, base, k, value), b, j) ==
            if base + 8 * k == b + 8 * j && Readable(mem, base, k) then value else Word(mem, b, j)
    ensures Store(mem, base, k, value).Keys == mem.Keys
  {
  }

  /** A store inside one region leaves every word of a region apart from it. */
  lemma StoreApart(mem: Memory, base: int, n: int, k: int, value: nat, b: int, m: int)
    requires Apart(base, n, b, m) && 0 <= k < n
    ensures forall j :: 0 <= j < m ==> Word(Store(mem, base, k, value), b, j) == Word(mem, b, j)
  {
  }

  // ---------- what a well-formed world gives ----------

  lemma SizeFacts(w: World, o: nat)
    requires w.WellFormed() && o in w.objects
    ensures w.SizeAt(w.mem0, o) == 8 * w.Words(o)
    ensures w.Words(o) >= 2
    ensures IsArrayId(w.cfg, w.Class(o).id) ==> w.Words(o) >= 3
  {
    assert w.ObjectOk(o);
    var r := w.Old(o, 0);
    assert w.ClassOk(r);
    SizesAreWords(w.cfg, w.Old(o, 2), w.Class(o));
    if IsArrayId(w.cfg, w.Class(o).id) {
      ArraySizeBounds(w.cfg, w.Old(o, 2));
      ScaleNonNegative(LengthOf(w.Old(o, 2)), StrideOf(w.Old(o, 2)));
    } else {
      PlainSizeBounds(w.cfg, w.Class(o));
    }
  }

  /** Every slot the scan looks at lies inside the object and past its header. */
  lemma SlotsInside(w: World, o: nat, k: int)
    requires w.WellFormed() && o in w.objects && k in w.Slots(o)
    ensures 2 <= k < w.Words(o)
    ensures IsArrayId(w.cfg, w.Class(o).id) ==> 3 <= k
  {
    assert w.ObjectOk(o);
    assert w.ClassOk(w.Old(o, 0));
    SizeFacts(w, o);
    if IsArrayId(w.cfg, w.Class(o).id) {
      ElementSlotInside(w.cfg, w.Old(o, 2), k);
    } else {
      FieldSlotInside(w.cfg, w.Class(o), k);
    }
  }

  lemma ElementSlotInside(cfg: Config, lengthWord: int, k: int)
    requires LengthOf(lengthWord) >= 0 && StrideOf(lengthWord) == 8
    requires k in ElementSlots(LengthOf(lengthWord))
    ensures 3 <= k && 8 * (k + 1) <= ArraySize(cfg, lengthWord)
  {
    ArraySizeBounds(cfg, lengthWord);
  }

  lemma FieldSlotInside(cfg: Config, c: Rtti, k: int)
    requires 16 <= c.size < 0x8000_0000
    requires forall i :: 0 <= i < MapLength(c.refMap) ==>
               0 <= c.refMap[i] && 16 + 8 * c.refMap[i] + 8 <= c.size
    requires k in FieldSlots(cfg, c, MapLength(c.refMap))
    ensures 2 <= k && 8 * (k + 1) <= PlainSize(cfg, c)
  {
    PlainSizeBounds(cfg, c);
    FieldSlotsExactly(cfg, c, MapLength(c.refMap), k);
  }
}
