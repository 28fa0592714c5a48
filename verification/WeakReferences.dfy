// The loop that clears the referents of weak references, with the tracer and the
// reachability test of mmtk-core as parameters.
module WeakReferences {
  import opened Abi
  import opened Heap

  /** What the loop asks of mmtk-core. */
  datatype Oracle = Oracle(trace: nat -> nat, reachable: nat -> bool)

  /** The referent slot of the weak reference that `entry` stands for. */
  function ReferentSlot(cfg: Config, o: Oracle, entry: nat): int
  {
    o.trace(entry) + 16 + 8 * cfg.weakRefFieldOffset
  }

  /** A referent in the heap range that is unreachable once traced. */
  predicate Dead(cfg: Config, o: Oracle, referent: nat)
  {
    IsWordInHeap(cfg, referent) && !o.reachable(o.trace(referent))
  }

  function ReferentSlots(cfg: Config, o: Oracle, entries: seq<nat>): set<int>
  {
    set a | a in entries :: ReferentSlot(cfg, o, a)
  }

  lemma ReferentSlotsSnoc(cfg: Config, o: Oracle, entries: seq<nat>, last: nat)
    ensures ReferentSlots(cfg, o, entries + [last]) == ReferentSlots(cfg, o, entries) + {ReferentSlot(cfg, o, last)}
  {
    var all := entries + [last];
    assert forall a :: a in all <==> a in entries || a == last;
    assert last in all;
  }

  /** Memory with the dead referents among these slots set to null, and nothing else changed. */
  function Nullified(cfg: Config, o: Oracle, mem: Memory, slots: set<int>): Memory
  {
    map x | x in mem :: if x in slots && Dead(cfg, o, mem[x]) then 0 else mem[x]
  }

  /** Clearing slots in two goes is clearing them all: order and repetition make no difference. */
  lemma NullifiedTwice(cfg: Config, o: Oracle, mem: Memory, a: set<int>, b: set<int>)
    ensures Nullified(cfg, o, Nullified(cfg, o, mem, a), b) == Nullified(cfg, o, mem, a + b)
  {
  }

  ghost predicate SomeDead(cfg: Config, o: Oracle, mem: Memory, slots: set<int>)
  {
    exists x :: x in slots && x in mem && Dead(cfg, o, mem[x])
  }

  lemma NothingNullified(cfg: Config, o: Oracle, mem: Memory)
    ensures Nullified(cfg, o, mem, {}) == mem && !SomeDead(cfg, o, mem, {}) && ReferentSlots(cfg, o, []) == {}
  {
  }

  /** A slot cleared already is not a reason to report another one, unless null itself counts as dead. */
  lemma SomeDeadSplits(cfg: Config, o: Oracle, mem: Memory, a: set<int>, b: set<int>)
    ensures SomeDead(cfg, o, mem, a + b) <==>
            SomeDead(cfg, o, mem, a) || SomeDead(cfg, o, Nullified(cfg, o, mem, a), b)
  {
    var after := Nullified(cfg, o, mem, a);
    if SomeDead(cfg, o, mem, a + b) && !SomeDead(cfg, o, mem, a) {
      var x :| x in a + b && x in mem && Dead(cfg, o, mem[x]);
      assert x in b && after[x] == mem[x];
    }
    if x :| x in b && x in after && Dead(cfg, o, after[x]) {
      if x in a && Dead(cfg, o, mem[x]) {
        assert SomeDead(cfg, o, mem, a);
      } else {
        assert after[x] == mem[x] && x in a + b;
      }
    }
  }

  /** Memory changes exactly when some referent was dead and not null. */
  lemma NullifiedChangesExactly(cfg: Config, o: Oracle, mem: Memory, slots: set<int>)
    ensures Nullified(cfg, o, mem, slots) != mem <==>
            exists x :: x in slots && x in mem && Dead(cfg, o, mem[x]) && mem[x] != 0
  {
    var after := Nullified(cfg, o, mem, slots);
    assert after.Keys == mem.Keys;
    if forall x :: x in mem ==> after[x] == mem[x] {
      assert after == mem;
    } else {
      var x :| x in mem && after[x] != mem[x];
      assert Dead(cfg, o, mem[x]);
    }
  }

  /**
   * What the loop does to a word, told from the entries and the offset of the referent: it becomes
   * null if it is the referent field, 16 bytes of header and the offset after the traced entry, and
   * holds an unreachable address of the heap range; the flag is set if and only if there is such a word.
   */
  lemma NullifiedExactly(cfg: Config, o: Oracle, mem: Memory, entries: seq<nat>, x: int)
    requires x in mem
    ensures var slots := ReferentSlots(cfg, o, entries);
            var after := Nullified(cfg, o, mem, slots);
            && after.Keys == mem.Keys
            && after[x] == (if ClearedFor(cfg, o, mem, entries, x) then 0 else mem[x])
            && (SomeDead(cfg, o, mem, slots) <==> exists y :: y in mem && ClearedFor(cfg, o, mem, entries, y))
  {
    forall y | y in mem
      ensures y in ReferentSlots(cfg, o, entries) && Dead(cfg, o, mem[y]) <==> ClearedFor(cfg, o, mem, entries, y)
    {
      if y in ReferentSlots(cfg, o, entries) {
        var a :| a in entries && y == ReferentSlot(cfg, o, a);
        assert FieldOf(cfg, o, a, y);
      }
      if a :| a in entries && FieldOf(cfg, o, a, y) {
        assert ReferentSlot(cfg, o, a) == y;
      }
    }
  }

  /** x is the address of the referent field of what tracing the entry returns. */
  ghost predicate FieldOf(cfg: Config, o: Oracle, entry: nat, x: int)
  {
    x == o.trace(entry) + 16 + 8 * cfg.weakRefFieldOffset
  }

  ghost predicate ClearedFor(cfg: Config, o: Oracle, mem: Memory, entries: seq<nat>, x: int)
    requires x in mem
  {
    && (exists a :: a in entries && FieldOf(cfg, o, a, x))
    && cfg.heapStart <= mem[x] < cfg.heapEnd && !o.reachable(o.trace(mem[x]))
  }

  class WeakRefProcessor {
    const cfg: Config
    const oracle: Oracle
    var mem: Memory
    var weakRefStack: seq<nat>
    var visited: bool

    constructor (cfg: Config, oracle: Oracle, mem: Memory, weakRefStack: seq<nat>)
      ensures this.cfg == cfg && this.oracle == oracle && this.mem == mem && this.weakRefStack == weakRefStack
    {
      this.cfg, this.oracle, this.mem, this.weakRefStack, visited := cfg, oracle, mem, weakRefStack, true;
    }

    /** The body of the loop, on the slot of the popped entry; it traces the referent before looking at its address. */
    method NullifySlot(edge: int)
      requires edge in mem
      modifies `mem, `visited
      ensures mem == Nullified(cfg, oracle, old(mem), {edge}) && mem.Keys == old(mem).Keys
      ensures visited <==> old(visited) || SomeDead(cfg, oracle, old(mem), {edge})
    {
      var referent := mem[edge];
      var tracedReferent := oracle.trace(referent);
      if IsWordInHeap(cfg, referent) {
        if !oracle.reachable(tracedReferent) {
          mem := mem[edge := 0];
          visited := true;
        }
      }
      assert mem == Nullified(cfg, oracle, old(mem), {edge});
      assert Dead(cfg, oracle, referent) <==> SomeDead(cfg, oracle, old(mem), {edge});
    }

    /** mmtk_weak_ref_stack_nullify: empties the stack, clears exactly the dead referents, says if there were any. */
    method Nullify()
      requires forall a :: a in weakRefStack ==> ReferentSlot(cfg, oracle, a) in mem
      modifies this
      ensures weakRefStack == []
      ensures mem == Nullified(cfg, oracle, old(mem), ReferentSlots(cfg, oracle, old(weakRefStack)))
      ensures visited <==> SomeDead(cfg, oracle, old(mem), ReferentSlots(cfg, oracle, old(weakRefStack)))
    {
      hide Nullified;
      hide SomeDead;
      hide ReferentSlots;
      visited := false;
      ghost var done: set<int> := {};
      NothingNullified(cfg, oracle, mem);
      while weakRefStack != []
        invariant done + ReferentSlots(cfg, oracle, weakRefStack) == ReferentSlots(cfg, oracle, old(weakRefStack))
        invariant forall a :: a in weakRefStack ==> ReferentSlot(cfg, oracle, a) in mem
        invariant mem == Nullified(cfg, oracle, old(mem), done)
        invariant visited <==> SomeDead(cfg, oracle, old(mem), done)
        decreases |weakRefStack|
      {
        ghost var stack := weakRefStack;
        var weakRef := weakRefStack[|weakRefStack| - 1];
        weakRefStack := weakRefStack[..|weakRefStack| - 1];
        assert stack == weakRefStack + [weakRef];
        ReferentSlotsSnoc(cfg, oracle, weakRefStack, weakRef);
        var edge := oracle.trace(weakRef) + 16 + 8 * cfg.weakRefFieldOffset;
        NullifiedTwice(cfg, oracle, old(mem), done, {edge});
        SomeDeadSplits(cfg, oracle, old(mem), done, {edge});
        NullifySlot(edge);
        done := done + {edge};
      }
      assert done + {} == done;
    }
  }

  // ---------- with a tracer that retains what it traces ----------

  /** If whatever is traced is reachable afterwards, the loop clears nothing and reports nothing. */
  lemma RetainingTracerClearsNothing(cfg: Config, o: Oracle, mem: Memory, slots: set<int>)
    requires forall x: nat {:trigger o.trace(x)} :: cfg.heapStart <= x < cfg.heapEnd ==> o.reachable(o.trace(x))
    ensures Nullified(cfg, o, mem, slots) == mem && !SomeDead(cfg, o, mem, slots)
  {
    NullifiedChangesExactly(cfg, o, mem, slots);
    forall x | x in mem
      ensures !Dead(cfg, o, mem[x])
    {
      var referent := mem[x];
      assert cfg.heapStart <= referent < cfg.heapEnd ==> o.reachable(o.trace(referent));
    }
  }
}
