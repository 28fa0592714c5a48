// What `scan_object` hands over, when it may be called, and what it pushes, told from single words of memory.
module PlainVisits {
  import opened Heap
  import opened Tracing
  import opened Invariant
  import opened ScanSteps
  import opened TwoPhase
  import opened PlainTerms

  lemma {:induction false} InVisited(w: World, s: State, a: nat, slots: seq<int>, k: int)
    ensures k in Visited(w, s, a, slots) <==> k in slots && ValidSlot(w, s, a, k)
  {
    if slots != [] {
      InVisited(w, s, a, slots[..|slots| - 1], k);
      assert slots == slots[..|slots| - 1] + [slots[|slots| - 1]];
    }
  }

  /** Scanning the k-th word pushes x. */
  ghost predicate PushedAt(w: World, s: State, a: nat, slots: seq<int>, k: int, x: nat)
  {
    k in slots && x in WeakPushed(w, s, a, k)
  }

  lemma {:induction false} InWeakSeen(w: World, s: State, a: nat, slots: seq<int>, x: nat)
    ensures x in WeakSeen(w, s, a, slots) <==> exists k :: PushedAt(w, s, a, slots, k, x)
  {
    hide WeakPushed;
    if slots != [] {
      var before, last := slots[..|slots| - 1], slots[|slots| - 1];
      InWeakSeen(w, s, a, before, x);
      assert slots == before + [last];
      if k :| PushedAt(w, s, a, slots, k, x) {
        assert k == last || PushedAt(w, s, a, before, k, x);
      }
      if k :| PushedAt(w, s, a, before, k, x) {
        assert PushedAt(w, s, a, slots, k, x);
      }
      if x in WeakPushed(w, s, a, last) {
        assert PushedAt(w, s, a, slots, last, x);
      }
    }
  }

  /** The k-th word of o is a strong slot that holds, in the starting heap, the valid object v, and now holds `now`. */
  ghost predicate Holds(w: World, s: State, o: nat, k: int, v: nat, now: nat)
  {
    var slot := w.Dest(o) + 8 * k;
    && v in w.objects && StrongSlot(w, o, w.Class(o), k)
    && o + 8 * k in w.mem0 && w.mem0[o + 8 * k] == v && slot in s.mem && s.mem[slot] == now
  }

  lemma HoldsExactly(w: World, s: State, o: nat, k: int)
    requires w.WellFormed() && Inv(w, s) && o in s.traced
    ensures var v, now := w.Old(o, k), Word(s.mem, w.Dest(o), k);
            && (Holds(w, s, o, k, v, now) <==> k in w.Slots(o) && ValidSlot(w, s, w.Dest(o), k))
            && (forall v', now' :: Holds(w, s, o, k, v', now') ==> v' == v && now' == now)
            && (Holds(w, s, o, k, v, now) ==> now == v || (now == w.Dest(v) && v in s.traced))
  {
    hide World.WellFormed;
    hide World.Slots;
    hide World.Class;
    hide StrongSlot;
    hide Inv;
    TracedObject(w, s, o);
    SlotsInPlainTerms(w, o, k);
    if k in w.Slots(o) {
      SlotsInside(w, o, k);
      WordOfObject(w, o, k);
      SlotReadable(w, s, o, k);
      SlotContent(w, s, o, k);
    }
  }

  lemma TracedObject(w: World, s: State, o: nat)
    requires Inv(w, s) && o in s.traced
    ensures o in w.objects
  {
  }

  /** The edges handed over are the addresses of exactly the strong slots that hold valid objects. */
  lemma EdgesInPlainTerms(w: World, s: State, o: nat, e: int)
    requires w.WellFormed() && Inv(w, s) && o in s.traced
    ensures e in EdgeAddresses(w.Dest(o), Visited(w, s, w.Dest(o), w.Slots(o))) <==>
            exists k, v, now :: Holds(w, s, o, k, v, now) && e == w.Dest(o) + 8 * k
  {
    hide World.WellFormed;
    hide World.Slots;
    hide Inv;
    hide Holds;
    var slots := Visited(w, s, w.Dest(o), w.Slots(o));
    var edges := EdgeAddresses(w.Dest(o), slots);
    if e in edges {
      var i :| 0 <= i < |edges| && edges[i] == e;
      InVisited(w, s, w.Dest(o), w.Slots(o), slots[i]);
      HoldsExactly(w, s, o, slots[i]);
    }
    if k, v, now :| Holds(w, s, o, k, v, now) && e == w.Dest(o) + 8 * k {
      HoldsExactly(w, s, o, k);
      InVisited(w, s, w.Dest(o), w.Slots(o), k);
      var i :| 0 <= i < |slots| && slots[i] == k;
      assert edges[i] == e;
    }
  }

  // ---------- when the visit is defined, and what it pushes ----------

  /** A strong slot still names an object that has moved away. */
  ghost predicate StillNames(w: World, s: State, o: nat, k: int, v: nat)
  {
    Holds(w, s, o, k, v, v) && w.Moves(v) && v in s.traced
  }

  lemma SlotIsClean(w: World, s: State, o: nat, k: int)
    requires w.WellFormed() && Inv(w, s) && o in s.traced && k in w.Slots(o)
    ensures CleanSlot(w, s, w.Dest(o), k) <==> !StillNames(w, s, o, k, w.Old(o, k))
    ensures ValidSlot(w, s, w.Dest(o), k) && CleanSlot(w, s, w.Dest(o), k) ==>
              Word(s.mem, Word(s.mem, w.Dest(o), k), 0) == w.Old(w.Old(o, k), 0)
  {
    hide World.WellFormed;
    hide World.Slots;
    hide Inv;
    hide Holds;
    var v := w.Old(o, k);
    HoldsExactly(w, s, o, k);
    if ValidSlot(w, s, w.Dest(o), k) {
      CleanHeaderIsClass(w, s, o, k);
      ValidTarget(w, s, o, k);
    }
  }

  /** The header a valid slot leads to is the forwarding word exactly when the slot names an object that moved away. */
  lemma ValidTarget(w: World, s: State, o: nat, k: int)
    requires w.WellFormed() && Inv(w, s) && o in s.traced && k in w.Slots(o) && ValidSlot(w, s, w.Dest(o), k)
    ensures var v, field := w.Old(o, k), Word(s.mem, w.Dest(o), k);
            && v in w.objects
            && (Word(s.mem, field, 0) % 4 != 0 <==> field == v && w.Moves(v) && v in s.traced)
  {
    var v, field := w.Old(o, k), Word(s.mem, w.Dest(o), k);
    SlotContent(w, s, o, k);
    assert w.ObjectOk(v) && w.DestOk(v);
    ClassPointerIsAligned(w, w.Old(v, 0));
    ForwardingBits(w.Old(v, 0));
    ForwardingBits(w.Dest(v));
    if v in s.traced {
      HeaderOfImage(w, s, v);
      assert w.Moves(v) ==> Condemned(w, s.mem, v);
    } else {
      SizeFacts(w, v);
      assert Intact(w, s.mem, v);
    }
  }

  /** The visit is defined if and only if no strong slot still names an object that has moved away. */
  lemma DefinedInPlainTerms(w: World, s: State, o: nat)
    requires w.WellFormed() && Inv(w, s) && o in s.traced
    ensures CleanSlots(w, s, w.Dest(o), w.Slots(o)) <==> forall k, v :: !StillNames(w, s, o, k, v)
  {
    hide World.WellFormed;
    hide World.Slots;
    hide Inv;
    hide Holds;
    hide CleanSlot;
    forall k | k in w.Slots(o)
      ensures CleanSlot(w, s, w.Dest(o), k) <==> !StillNames(w, s, o, k, w.Old(o, k))
    {
      SlotIsClean(w, s, o, k);
    }
    if k, v :| StillNames(w, s, o, k, v) {
      HoldsExactly(w, s, o, k);
    }
  }

  ghost predicate HoldsWeak(w: World, s: State, o: nat, k: int, v: nat, now: nat)
  {
    Holds(w, s, o, k, v, now) && v in w.mem0 && w.mem0[v] in w.classes && WeakClass(w, w.classes[w.mem0[v]])
  }

  lemma PushedInPlainTerms(w: World, s: State, o: nat, k: int, x: nat)
    requires w.WellFormed() && Inv(w, s) && o in s.traced && k in w.Slots(o) && CleanSlot(w, s, w.Dest(o), k)
    ensures x in WeakPushed(w, s, w.Dest(o), k) <==> HoldsWeak(w, s, o, k, w.Old(o, k), x)
  {
    hide World.WellFormed;
    hide World.Slots;
    hide Inv;
    hide Holds;
    hide CleanSlot;
    HoldsExactly(w, s, o, k);
    if ValidSlot(w, s, w.Dest(o), k) {
      SlotIsClean(w, s, o, k);
      ValidTarget(w, s, o, k);
      ClassOfObject(w, w.Old(o, k));
    }
  }

  /** A visit that is defined pushes exactly the weak references that strong slots hold, as they are named there. */
  lemma WeakSeenInPlainTerms(w: World, s: State, o: nat, x: nat)
    requires w.WellFormed() && Inv(w, s) && o in s.traced && CleanSlots(w, s, w.Dest(o), w.Slots(o))
    ensures x in WeakSeen(w, s, w.Dest(o), w.Slots(o)) <==> exists k, v :: HoldsWeak(w, s, o, k, v, x)
  {
    hide World.WellFormed;
    hide World.Slots;
    hide Inv;
    hide Holds;
    hide CleanSlot;
    hide WeakPushed;
    InWeakSeen(w, s, w.Dest(o), w.Slots(o), x);
    if k :| PushedAt(w, s, w.Dest(o), w.Slots(o), k, x) {
      PushedInPlainTerms(w, s, o, k, x);
    }
    if k, v :| HoldsWeak(w, s, o, k, v, x) {
      HoldsExactly(w, s, o, k);
      PushedInPlainTerms(w, s, o, k, x);
      assert PushedAt(w, s, w.Dest(o), w.Slots(o), k, x);
    }
  }
}
