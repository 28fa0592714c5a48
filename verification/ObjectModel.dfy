// `ObjectModel::copy`: copying an object whose header carries forwarding bits.
module ObjectModel {
  import opened Bits
  import opened Abi
  import opened Heap

  // The two low bits of the header word, as mmtk-core uses them.
  const BEING_FORWARDED: nat := 2
  const FORWARDED: nat := 3

  /** `post_copy`, as mmtk-core promises it: the forwarding bits of the copy are cleared. */
  function ClearForwardingBits(header: nat): nat
  {
    And(header, Not(FORWARDED))
  }

  /** `copy_nonoverlapping` of a whole number of words. */
  function CopyWords(mem: Memory, from: int, to: int, bytes: nat): Memory
  {
    map a | a in mem ::
      if to <= a < to + bytes && (a - to) % 8 == 0 then Word(mem, from + (a - to), 0) else mem[a]
  }

  function CopyObject(w: World, mem: Memory, from: int, to: int): Memory
  {
    var copied := CopyWords(mem, from, to, w.SizeForCopyAt(mem, from));
    Store(copied, to, 0, ClearForwardingBits(Word(copied, to, 0)))
  }

  lemma CopyWordsInside(mem: Memory, from: int, to: int, n: nat, k: int)
    requires 0 <= k < n && Readable(mem, to, k)
    ensures Word(CopyWords(mem, from, to, 8 * n), to, k) == Word(mem, from, k)
  {
    assert Word(mem, from + 8 * k, 0) == Word(mem, from, k);
  }

  lemma CopyWordsOutside(mem: Memory, from: int, to: int, n: nat, b: int, m: int)
    requires Apart(to, n, b, m)
    ensures CopyWords(mem, from, to, 8 * n).Keys == mem.Keys
    ensures forall j :: 0 <= j < m ==> Word(CopyWords(mem, from, to, 8 * n), b, j) == Word(mem, b, j)
  {
  }

  lemma CopyWordsFrame(mem: Memory, from: int, to: int, n: nat, a: int)
    requires a in mem && forall k :: 0 <= k < n ==> a != to + 8 * k
    ensures CopyWords(mem, from, to, 8 * n)[a] == mem[a]
  {
    var k := (a - to) / 8;
    assert (a - to) % 8 == 0 ==> a == to + 8 * k;
  }

  /** What the header of an object looks like while mmtk-core has put `bits` under its class pointer. */
  ghost predicate TaggedImage(w: World, mem: Memory, o: nat, bits: nat)
  {
    && Word(mem, o, 0) == w.Old(o, 0) + bits
    && forall k :: 1 <= k < w.Words(o) ==> Word(mem, o, k) == w.Old(o, k)
  }

  /** An object that is being forwarded: its header carries some of the two forwarding bits. */
  ghost predicate Copyable(w: World, mem: Memory, o: nat, bits: nat)
  {
    && w.WellFormed() && o in w.objects && w.Moves(o) && mem.Keys == w.mem0.Keys
    && bits <= FORWARDED && TaggedImage(w, mem, o, bits)
  }

  /** Whatever bits below the alignment sit in the header, the masked size is the size of the clean object. */
  lemma SizeForCopyIgnoresTagBits(w: World, mem: Memory, o: nat, bits: nat)
    requires w.WellFormed() && o in w.objects && bits < Alignment(w.cfg)
    requires TaggedImage(w, mem, o, bits)
    ensures w.SizeForCopyAt(mem, o) == w.SizeAt(w.mem0, o)
  {
    assert w.ObjectOk(o);
    var r := w.Old(o, 0);
    assert w.ClassOk(r);
    SizeFacts(w, o);
    HeaderRoom(w, r, bits);
    AlignPtrDropsTagBits(w.cfg, r, bits);
  }

  lemma HeaderRoom(w: World, r: nat, bits: nat)
    requires r < TWO_64 && r % Alignment(w.cfg) == 0 && bits < Alignment(w.cfg)
    ensures r + bits < TWO_64
  {
    Pow2DividesWord(w.cfg.alignLog);
    MultiplesApart(r, TWO_64, Alignment(w.cfg));
  }

  /**
   * Copying an object that is being forwarded gives, word for word, the clean object:
   * same class, lock word, length and slots, and so the same size and the same scan.
   */
  lemma CopyIsFaithful(w: World, mem: Memory, o: nat, bits: nat)
    requires Copyable(w, mem, o, bits)
    ensures var after := CopyObject(w, mem, o, w.Dest(o));
            && after.Keys == mem.Keys
            && (forall k :: 0 <= k < w.Words(o) ==> Word(after, w.Dest(o), k) == w.Old(o, k))
            && w.ClassAt(after, w.Dest(o)) == w.Class(o)
            && w.SizeAt(after, w.Dest(o)) == w.SizeAt(w.mem0, o)
            && w.SlotsOf(after, w.Dest(o)) == w.Slots(o)
  {
    var to, n := w.Dest(o), w.Words(o);
    AlignmentIsWordMultiple(w.cfg);
    SizeForCopyIgnoresTagBits(w, mem, o, bits);
    SizeFacts(w, o);
    var copied := CopyWords(mem, o, to, 8 * n);
    assert w.DestOk(o);
    forall k | 0 <= k < n
      ensures Word(copied, to, k) == Word(mem, o, k)
    {
      assert Readable(w.mem0, to, k);
      CopyWordsInside(mem, o, to, n, k);
    }
    HeaderCleared(w, o, bits);
    var after := CopyObject(w, mem, o, to);
    assert Readable(w.mem0, to, 0);
    forall k | 0 <= k < n
      ensures Word(after, to, k) == w.Old(o, k)
    {
      StoreWord(copied, to, 0, ClearForwardingBits(Word(copied, to, 0)), to, k);
    }
    SameViewSameScan(w, after, to, o);
  }

  lemma HeaderCleared(w: World, o: nat, bits: nat)
    requires w.WellFormed() && o in w.objects && bits <= FORWARDED
    ensures ClearForwardingBits(w.Old(o, 0) + bits) == w.Old(o, 0)
  {
    assert w.ObjectOk(o);
    var r := w.Old(o, 0);
    assert w.ClassOk(r);
    AlignmentIsWordMultiple(w.cfg);
    HeaderRoom(w, r, bits);
    MultipleOfMultiple(r, Alignment(w.cfg), 8);
    ClearLowTwoBits(r, bits);
  }

  /** The scan of an object depends only on its header and its length word. */
  lemma SameViewSameScan(w: World, mem: Memory, a: int, o: nat)
    requires w.WellFormed() && o in w.objects
    requires Word(mem, a, 0) == w.Old(o, 0)
    requires IsArrayId(w.cfg, w.Class(o).id) ==> Word(mem, a, 2) == w.Old(o, 2)
    ensures w.ClassAt(mem, a) == w.Class(o)
    ensures w.SizeAt(mem, a) == w.SizeAt(w.mem0, o)
    ensures w.SlotsOf(mem, a) == w.Slots(o)
  {
  }
}
