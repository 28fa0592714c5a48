// Object layout: classes, sizes, array headers, tagged lock words and the
// address helpers that mask with the allocation alignment.
module Abi {
  import opened Bits

  const LAST_FIELD_OFFSET: int := -1
  const MONITOR_INFLATION_MARK_MASK: nat := 1

  /** What the binding learns once from its upcalls and from mmtk-core. */
  datatype Settings = Settings(
    alignLog: nat,
    arrayIdsMin: int, arrayIdsMax: int, objectArrayId: int,
    weakRefIdsMin: int, weakRefIdsMax: int, weakRefFieldOffset: int,
    heapStart: int, heapEnd: int)

  /** The immutable part of a class: its lock word is kept apart, because the collector stores to it. */
  datatype Rtti = Rtti(id: int, size: int, refMap: seq<int>)

  /** The alignment is any power of two that fits a machine word. */
  type Config = c: Settings | c.alignLog < 64
    witness Settings(4, 0, 0, 0, 0, 0, 0, 1, 1)

  function Alignment(cfg: Config): nat { Pow2(cfg.alignLog) }

  // ---------- address helpers ----------

  predicate IsWordInHeap(cfg: Config, address: int)
  {
    cfg.heapStart <= address && address < cfg.heapEnd
  }

  function InverseMask(cfg: Config): nat
  {
    MaskRoundsDown(0, cfg.alignLog);
    Not(Alignment(cfg) - 1)
  }

  function AlignPtr(cfg: Config, address: nat): nat
  {
    And(address, InverseMask(cfg))
  }

  predicate IsPtrAligned(cfg: Config, address: nat)
  {
    And(address, InverseMask(cfg)) == address
  }

  /** Masking gives the greatest multiple of the alignment that is not above the address. */
  lemma AlignPtrIsGreatestMultipleBelow(cfg: Config, address: nat, multiple: int)
    requires address < TWO_64
    ensures AlignPtr(cfg, address) % Alignment(cfg) == 0
    ensures AlignPtr(cfg, address) <= address
    ensures multiple % Alignment(cfg) == 0 && multiple <= address ==> multiple <= AlignPtr(cfg, address)
  {
    MaskRoundsDown(address, cfg.alignLog);
    RemainderDropped(address, Alignment(cfg), multiple);
  }

  /** The alignment test accepts exactly the multiples of the alignment, the fixpoints of AlignPtr. */
  lemma IsPtrAlignedExactly(cfg: Config, address: nat)
    requires address < TWO_64
    ensures IsPtrAligned(cfg, address) <==> address % Alignment(cfg) == 0
    ensures IsPtrAligned(cfg, address) <==> AlignPtr(cfg, address) == address
  {
    MaskRoundsDown(address, cfg.alignLog);
  }

  /** Masking recovers an aligned pointer from under any bits smaller than the alignment. */
  lemma AlignPtrDropsTagBits(cfg: Config, pointer: nat, bits: nat)
    requires pointer % Alignment(cfg) == 0 && bits < Alignment(cfg)
    requires pointer + bits < TWO_64
    ensures AlignPtr(cfg, pointer + bits) == pointer
  {
    MaskRoundsDown(pointer + bits, cfg.alignLog);
    MultiplePlus(pointer, Alignment(cfg), bits);
  }

  lemma AlignmentFits(cfg: Config)
    ensures 2 * Alignment(cfg) <= TWO_64
  {
    SixtyFour();
    Pow2Bounds(0, cfg.alignLog + 1, 64);
  }

  lemma AlignmentIsWordMultiple(cfg: Config)
    requires cfg.alignLog >= 3
    ensures Alignment(cfg) % 8 == 0 && 8 <= Alignment(cfg)
  {
    var k := cfg.alignLog - 3;
    Pow2Sum(3, k);
    assert Pow2(3) == 8;
    DivModUnique(Alignment(cfg), 8, Pow2(k), 0);
  }

  // ---------- sizes ----------

  /** 64-bit arithmetic, as a release build computes it: the sum wraps. */
  function RoundToNextMultiple(value: nat, multiple: nat): nat
    requires 0 < multiple < TWO_64 && value < TWO_64
  {
    var sum := (value + multiple - 1) % TWO_64;
    assert sum / multiple >= 0;
    ScaleNonNegative(sum / multiple, multiple);
    sum / multiple * multiple
  }

  lemma ScaleNonNegative(q: int, m: int)
    requires q >= 0 && m >= 0
    ensures q * m >= 0
  {
  }

  /**
   * Rounding gives the least multiple not below the value exactly when the sum
   * does not wrap; when it wraps the result is zero.
   */
  lemma RoundToNextMultipleIsLeast(value: nat, multiple: nat, other: int)
    requires 0 < multiple < TWO_64 && value < TWO_64
    ensures var r := RoundToNextMultiple(value, multiple);
            && r % multiple == 0
            && (r >= value <==> value + multiple - 1 < TWO_64)
            && (value + multiple - 1 < TWO_64 ==>
                r < value + multiple && (other % multiple == 0 && other >= value ==> r <= other))
            && (value + multiple - 1 >= TWO_64 ==> r == 0)
  {
    var r := RoundToNextMultiple(value, multiple);
    var sum := value + multiple - 1;
    var q := (sum % TWO_64) / multiple;
    DivModUnique(r, multiple, q, 0);
    assert sum % TWO_64 == q * multiple + (sum % TWO_64) % multiple;
    if sum >= TWO_64 {
      assert sum % TWO_64 == sum - TWO_64;
      DivModUnique(sum - TWO_64, multiple, 0, sum - TWO_64);
    } else {
      assert sum % TWO_64 == sum;
      if other % multiple == 0 && other >= value {
        assert other == (other / multiple) * multiple;
        assert (q - other / multiple) * multiple == r - other;
        MultipleSize(q - other / multiple, multiple);
        MultipleSize(other / multiple - q, multiple);
      }
    }
  }

  /** Sign of a 32-bit field read out of a word. */
  function ToI32(bits: nat): int
    requires bits < 0x1_0000_0000
  {
    if bits < 0x8000_0000 then bits else bits - 0x1_0000_0000
  }

  /** The third word of an array holds its length (low half) and stride (high half). */
  function LengthOf(word: int): int { ToI32(word % 0x1_0000_0000) }

  function StrideOf(word: int): int { ToI32(word / 0x1_0000_0000 % 0x1_0000_0000) }

  predicate IsI32(x: int)
  {
    -0x8000_0000 <= x < 0x8000_0000
  }

  /** A word is decoded to exactly the two 32-bit fields it was put together from, negative ones included. */
  lemma LengthWordExactly(word: nat, length: int, stride: int)
    requires word < TWO_64 && -0x8000_0000 <= length < 0x8000_0000 && -0x8000_0000 <= stride < 0x8000_0000
    ensures LengthOf(word) == length && StrideOf(word) == stride <==>
            word == length % 0x1_0000_0000 + stride % 0x1_0000_0000 * 0x1_0000_0000
  {
    var low, high := word % 0x1_0000_0000, word / 0x1_0000_0000;
    assert high < 0x1_0000_0000 && word == high * 0x1_0000_0000 + low;
    I32Bits(low, length);
    I32Bits(high, stride);
  }

  lemma I32Bits(bits: nat, x: int)
    requires bits < 0x1_0000_0000 && IsI32(x)
    ensures ToI32(bits) == x <==> bits == x % 0x1_0000_0000
  {
  }

  /** `i32 as usize`: sign-extends, which changes nothing but a multiple of 2^64. */
  function AsUsize(x: int): (r: nat)
    requires IsI32(x)
    ensures r < TWO_64 && (r == x || r == x + TWO_64)
  {
    if x >= 0 then x else x + TWO_64
  }

  function ArraySize(cfg: Config, lengthWord: int): nat
  {
    AlignmentFits(cfg);
    ScaleNonNegative(AsUsize(LengthOf(lengthWord)), AsUsize(StrideOf(lengthWord)));
    RoundToNextMultiple(
      (24 + AsUsize(LengthOf(lengthWord)) * AsUsize(StrideOf(lengthWord))) % TWO_64,
      Alignment(cfg))
  }

  function PlainSize(cfg: Config, c: Rtti): nat
  {
    AlignmentFits(cfg);
    RoundToNextMultiple(c.size % TWO_64, Alignment(cfg))
  }

  lemma ProductBound(x: nat, y: nat, maxX: nat, maxY: nat)
    requires x <= maxX && y <= maxY
    ensures x * y <= maxX * maxY
  {
    assert maxX * maxY == x * y + (maxX - x) * y + maxX * (maxY - y);
    ScaleNonNegative(maxX - x, y);
    ScaleNonNegative(maxX, maxY - y);
  }

  /** The payload of an array with non-negative 32-bit fields. */
  lemma PayloadBound(l: int, s: int)
    requires 0 <= l < 0x8000_0000 && 0 <= s < 0x8000_0000
    ensures 0 <= l * s <= 0x3fff_ffff_0000_0001
  {
    ProductBound(l, s, 0x7fff_ffff, 0x7fff_ffff);
    ScaleNonNegative(l, s);
  }

  lemma RoundedUp(cfg: Config, value: nat)
    requires value < TWO_64 / 2
    ensures var r := (AlignmentFits(cfg); RoundToNextMultiple(value, Alignment(cfg)));
            value <= r < value + Alignment(cfg) && r < TWO_64 && r % Alignment(cfg) == 0
  {
    AlignmentFits(cfg);
    RoundToNextMultipleIsLeast(value, Alignment(cfg), 0);
  }

  /** No array header with non-negative fields overflows its size, whatever the alignment. */
  lemma ArraySizeBounds(cfg: Config, lengthWord: int)
    requires LengthOf(lengthWord) >= 0 && StrideOf(lengthWord) >= 0
    ensures var payload := LengthOf(lengthWord) * StrideOf(lengthWord);
            && 24 + payload <= ArraySize(cfg, lengthWord) < 24 + payload + Alignment(cfg)
            && ArraySize(cfg, lengthWord) < TWO_64
            && ArraySize(cfg, lengthWord) % Alignment(cfg) == 0
  {
    hide RoundToNextMultiple;
    PayloadBound(LengthOf(lengthWord), StrideOf(lengthWord));
    RoundedUp(cfg, 24 + LengthOf(lengthWord) * StrideOf(lengthWord));
  }

  /** The size of an array, from the two numbers its header word was put together from. */
  lemma ArraySizeOfFields(cfg: Config, length: nat, stride: nat)
    requires length < 0x8000_0000 && stride < 0x8000_0000
    ensures var size := ArraySize(cfg, length + stride * 0x1_0000_0000);
            24 + length * stride <= size < 24 + length * stride + Alignment(cfg) && size % Alignment(cfg) == 0
  {
    hide ArraySize;
    hide LengthOf;
    hide StrideOf;
    LengthWordExactly(length + stride * 0x1_0000_0000, length, stride);
    ArraySizeBounds(cfg, length + stride * 0x1_0000_0000);
  }

  lemma PlainSizeBounds(cfg: Config, c: Rtti)
    requires 0 <= c.size < 0x8000_0000
    ensures c.size <= PlainSize(cfg, c) < c.size + Alignment(cfg)
    ensures PlainSize(cfg, c) % Alignment(cfg) == 0
  {
    hide RoundToNextMultiple;
    RoundedUp(cfg, c.size);
  }

  /** With an alignment of at least a word, sizes are whole numbers of words. */
  lemma SizesAreWords(cfg: Config, lengthWord: int, c: Rtti)
    requires cfg.alignLog >= 3
    ensures LengthOf(lengthWord) >= 0 && StrideOf(lengthWord) >= 0 ==> ArraySize(cfg, lengthWord) % 8 == 0
    ensures 0 <= c.size < 0x8000_0000 ==> PlainSize(cfg, c) % 8 == 0
  {
    AlignmentIsWordMultiple(cfg);
    if LengthOf(lengthWord) >= 0 && StrideOf(lengthWord) >= 0 {
      ArraySizeBounds(cfg, lengthWord);
      MultipleOfMultiple(ArraySize(cfg, lengthWord), Alignment(cfg), 8);
    }
    if 0 <= c.size < 0x8000_0000 {
      PlainSizeBounds(cfg, c);
      MultipleOfMultiple(PlainSize(cfg, c), Alignment(cfg), 8);
    }
  }

  lemma MultipleOfMultiple(x: int, a: nat, b: nat)
    requires a > 0 && b > 0 && x % a == 0 && a % b == 0
    ensures x % b == 0
  {
    var q, p := x / a, a / b;
    assert x == q * a && a == p * b;
    assert q * (p * b) == (q * p) * b;
    DivModUnique(x, b, q * p, 0);
  }

  // ---------- array elements ----------

  function GetElementAddress(self: int, lengthWord: int, index: int): int
    requires 0 <= index < 0x8000_0000
  {
    self + 24 + AsUsize(index) * AsUsize(StrideOf(lengthWord))
  }

  /** The slot the object-array loop visits at step i. */
  function ElementSlot(self: int, i: int): int { self + 24 + 8 * i }

  /** Every element lies between the header and the end of the array, and no two elements overlap. */
  lemma ElementsInsideAndDisjoint(cfg: Config, self: int, lengthWord: int, i: int, j: int)
    requires LengthOf(lengthWord) >= 0 && StrideOf(lengthWord) >= 0
    requires 0 <= i < j < LengthOf(lengthWord)
    ensures var stride := StrideOf(lengthWord);
            && self + 24 <= GetElementAddress(self, lengthWord, i)
            && GetElementAddress(self, lengthWord, i) + stride <= GetElementAddress(self, lengthWord, j)
            && GetElementAddress(self, lengthWord, j) + stride <= self + ArraySize(cfg, lengthWord)
  {
    var l, s := LengthOf(lengthWord), StrideOf(lengthWord);
    ArraySizeBounds(cfg, lengthWord);
    ProductBound(i + 1, s, j, s);
    ProductBound(j + 1, s, l, s);
    ScaleNonNegative(i, s);
    assert (i + 1) * s == i * s + s && (j + 1) * s == j * s + s;
  }

  /** Element i of an array lies i strides after the 24 bytes of its header. */
  lemma ElementAddressOfFields(self: int, length: nat, stride: nat, i: nat)
    requires i < length < 0x8000_0000 && stride < 0x8000_0000
    ensures GetElementAddress(self, length + stride * 0x1_0000_0000, i) == self + 24 + i * stride
  {
    hide LengthOf;
    hide StrideOf;
    LengthWordExactly(length + stride * 0x1_0000_0000, length, stride);
  }

  /** The object-array loop, which ignores the stride, meets the element addresses exactly when the stride is a word. */
  lemma ElementSlotsAreElementAddresses(self: int, lengthWord: int)
    requires LengthOf(lengthWord) >= 2 && StrideOf(lengthWord) >= 0
    ensures (forall i :: 0 <= i < LengthOf(lengthWord) ==>
               ElementSlot(self, i) == GetElementAddress(self, lengthWord, i))
            <==> StrideOf(lengthWord) == 8
  {
    var s := StrideOf(lengthWord);
    assert GetElementAddress(self, lengthWord, 1) == self + 24 + s;
    assert ElementSlot(self, 1) == self + 24 + 8;
  }

  // ---------- classes ----------

  predicate IsArrayId(cfg: Config, id: int)
  {
    cfg.arrayIdsMin <= id && id <= cfg.arrayIdsMax
  }

  predicate IsWeakRefId(cfg: Config, id: int)
  {
    cfg.weakRefIdsMin <= id && id <= cfg.weakRefIdsMax
  }

  predicate IsReferentOfWeakReference(cfg: Config, id: int, fieldOffset: int)
  {
    IsWeakRefId(cfg, id) && fieldOffset == cfg.weakRefFieldOffset
  }

  /** Number of entries before the terminator. */
  function MapLength(refMap: seq<int>): (n: nat)
    ensures n <= |refMap|
    ensures forall i :: 0 <= i < n ==> refMap[i] != LAST_FIELD_OFFSET
    ensures n < |refMap| ==> refMap[n] == LAST_FIELD_OFFSET
  {
    if refMap == [] || refMap[0] == LAST_FIELD_OFFSET then 0 else 1 + MapLength(refMap[1..])
  }

  method NumFields(refMap: seq<int>) returns (i: nat)
    requires LAST_FIELD_OFFSET in refMap
    ensures i < |refMap| && refMap[i] == LAST_FIELD_OFFSET && LAST_FIELD_OFFSET !in refMap[..i]
    ensures i == MapLength(refMap)
  {
    i := 0;
    while refMap[i] != LAST_FIELD_OFFSET
      invariant 0 <= i < |refMap|
      invariant LAST_FIELD_OFFSET !in refMap[..i]
      decreases |refMap| - i
    {
      assert LAST_FIELD_OFFSET in refMap[i + 1..];
      i := i + 1;
    }
  }

  /**
   * Word positions, counted from the object's base, of the slots that the scan of an
   * object looks at: the first n entries of the map less the weak referent.
   */
  function FieldSlots(cfg: Config, c: Rtti, n: nat): seq<int>
    requires n <= |c.refMap|
  {
    if n == 0 then []
    else
      FieldSlots(cfg, c, n - 1) +
      (if IsReferentOfWeakReference(cfg, c.id, c.refMap[n - 1]) then [] else [2 + c.refMap[n - 1]])
  }

  lemma {:induction false} FieldSlotsExactly(cfg: Config, c: Rtti, n: nat, k: int)
    requires n <= |c.refMap|
    ensures k in FieldSlots(cfg, c, n) <==>
            exists i :: 0 <= i < n && k == 2 + c.refMap[i] &&
              !(cfg.weakRefIdsMin <= c.id <= cfg.weakRefIdsMax && c.refMap[i] == cfg.weakRefFieldOffset)
  {
    if n > 0 {
      FieldSlotsExactly(cfg, c, n - 1, k);
    }
  }

  lemma {:induction false} FieldSlotsPrefix(cfg: Config, c: Rtti, i: nat, n: nat)
    requires i <= n <= |c.refMap|
    ensures FieldSlots(cfg, c, i) <= FieldSlots(cfg, c, n)
    decreases n - i
  {
    if i < n {
      FieldSlotsPrefix(cfg, c, i, n - 1);
    }
  }

  lemma FieldSlotsStep(cfg: Config, c: Rtti, i: nat)
    requires i < MapLength(c.refMap)
    ensures IsReferentOfWeakReference(cfg, c.id, c.refMap[i]) ==>
              FieldSlots(cfg, c, i + 1) == FieldSlots(cfg, c, i)
    ensures !IsReferentOfWeakReference(cfg, c.id, c.refMap[i]) ==>
              && FieldSlots(cfg, c, i + 1) == FieldSlots(cfg, c, i) + [2 + c.refMap[i]]
              && 2 + c.refMap[i] in FieldSlots(cfg, c, MapLength(c.refMap))
  {
    FieldSlotsExactly(cfg, c, MapLength(c.refMap), 2 + c.refMap[i]);
  }

  /** Word positions of the elements the scan of an object array looks at. */
  function ElementSlots(n: nat): (slots: seq<int>)
    ensures |slots| == n && forall i :: 0 <= i < n ==> slots[i] == 3 + i
  {
    seq(n, i => 3 + i)
  }

  // ---------- lock words ----------

  predicate FieldIsInflatedLock(field: nat)
  {
    And(field, MONITOR_INFLATION_MARK_MASK) != 0
  }

  function FieldAlignedLockRef(field: nat): nat
  {
    And(field, Not(MONITOR_INFLATION_MARK_MASK))
  }

  function FieldInflateLockRef(field: nat): nat
  {
    Or(field, MONITOR_INFLATION_MARK_MASK)
  }

  lemma LockWordArithmetic(field: nat)
    requires field < TWO_64
    ensures FieldIsInflatedLock(field) <==> field % 2 == 1
    ensures FieldAlignedLockRef(field) == field - field % 2
    ensures FieldInflateLockRef(field) == field - field % 2 + 1
  {
    LowBit(field);
    ClearLowBit(field);
    SetLowBit(field);
  }

  lemma TagEven(field: nat)
    requires field % 2 == 0 && field + 1 < TWO_64
    ensures FieldInflateLockRef(field) == field + 1
    ensures FieldIsInflatedLock(field + 1)
    ensures FieldAlignedLockRef(field + 1) == field
  {
    LockWordArithmetic(field);
    LockWordArithmetic(field + 1);
  }

  /** Tagging and untagging undo each other on even addresses and on inflated words. */
  lemma TagRoundTrip(field: nat)
    requires field < TWO_64
    ensures FieldInflateLockRef(field) < TWO_64 && FieldIsInflatedLock(FieldInflateLockRef(field))
    ensures field % 2 == 0 <==> FieldAlignedLockRef(FieldInflateLockRef(field)) == field
    ensures FieldIsInflatedLock(field) <==> FieldInflateLockRef(FieldAlignedLockRef(field)) == field
  {
    LockWordArithmetic(field);
    LockWordArithmetic(FieldInflateLockRef(field));
    LockWordArithmetic(FieldAlignedLockRef(field));
  }
}
