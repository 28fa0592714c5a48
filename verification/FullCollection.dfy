// From a root scan to the end of the trace that follows it.
module FullCollection {
  import opened Abi
  import opened Heap
  import opened RootsReporting
  import opened RootScanning
  import opened RootProperties
  import opened Tracing
  import opened Invariant
  import opened ObjectScanning
  import opened Evacuation
  import opened Collection
  import opened PlainTerms

  /** The weak stack after a root scan: what was left there, and the weak ones of what was reported. */
  ghost function WeakAfterScan(w: World, reported: seq<nat>): seq<nat>
  {
    w.leftover + WeakOf(w, reported)
  }

  /**
   * The report of a root scan is what a collection starts from: with these roots pinned,
   * the packets name them all and the weak stack has gained the weak ones, so every result
   * about collections holds of the run that follows.
   */
  lemma RootScanStartsCollection(w: World, rank: map<nat, nat>, threads: seq<Ranges>, modules: seq<nat>,
                                 packets: seq<seq<nat>>, picks: seq<nat>)
    requires w.WellFormed() && Ranked(w, rank)
    requires var reported := VmRoots(w, rank, threads, modules);
             && Flatten(packets) == reported && (forall r :: r in w.roots <==> r in reported)
             && IsRun(w, TraceRoots(w, Begin(w, WeakAfterScan(w, reported)), reported), picks)
    ensures var reported := VmRoots(w, rank, threads, modules);
            var weak := WeakAfterScan(w, reported);
            && IsCollection(w, weak, Flatten(packets), picks)
            && (Collect(w, weak, Flatten(packets), picks).queue == [] ==>
                  Isomorphic(w, Collect(w, weak, Flatten(packets), picks).mem))
  {
    var reported := VmRoots(w, rank, threads, modules);
    var weak := WeakAfterScan(w, reported);
    ScanRecordsWeak(w, reported);
    if Collect(w, weak, reported, picks).queue == [] {
      EvacuationPreservesGraph(w, weak, reported, picks);
    }
  }

  lemma ScanRecordsWeak(w: World, reported: seq<nat>)
    requires forall r :: r in w.roots <==> r in reported
    ensures WeakRootsRecorded(w, WeakAfterScan(w, reported))
  {
    forall a
      ensures a in WeakOf(w, reported) <==> a in w.roots && w.IsWeak(a)
    {
      WeakOfExactly(w, reported, a);
    }
  }

  lemma HeadersAreReadable(w: World)
    requires w.WellFormed()
    ensures HeadersReadable(w)
  {
    forall o | o in w.objects
      ensures HeaderReadable(w, o)
    {
      SizeFacts(w, o);
      assert w.ObjectOk(o) && w.ClassOk(w.Old(o, 0));
      assert Readable(w.mem0, o, 0) && Readable(w.mem0, o, 1);
    }
  }

  // ---------- lock words ----------

  /** Root scanning reports the monitors of what it reports, so the lock words of roots survive. */
  lemma RootLocksSurvive(w: World, rank: map<nat, nat>, threads: seq<Ranges>, modules: seq<nat>, v: nat)
    requires w.WellFormed() && Ranked(w, rank) && v in w.roots
    requires forall r :: r in w.roots <==> r in VmRoots(w, rank, threads, modules)
    ensures LockSurvives(w, w.Old(v, 1)) && LockSurvives(w, w.Lock0(w.Old(v, 0)))
  {
    var report := VmRoots(w, rank, threads, modules);
    RootsListMonitorsFirst(w, rank, threads, modules);
    var i :| 0 <= i < |report| && report[i] == v;
    assert Preceded(w, report, i);
    assert w.ObjectOk(v) && w.ClassOk(w.Old(v, 0));
    MonitorSurvives(w, v, w.Old(v, 1));
    MonitorSurvives(w, v, w.Lock0(w.Old(v, 0)));
  }

  lemma MonitorSurvives(w: World, v: nat, lock: nat)
    requires w.WellFormed() && forall m :: m in Monitors(w, v) ==> m in w.roots
    requires lock == w.Lock0(w.Old(v, 0)) || lock == w.Old(v, 1)
    requires FieldIsInflatedLock(lock) ==> FieldAlignedLockRef(lock) in w.objects
    ensures LockSurvives(w, lock)
  {
    if FieldIsInflatedLock(lock) {
      var m := FieldAlignedLockRef(lock);
      assert w.ObjectOk(m);
      assert m in MonitorOf(w, lock);
      assert m in Monitors(w, v);
    }
  }

  /** Which lock words name a surviving monitor after a collection. */
  ghost predicate LocksAfter(w: World, mem: Memory, locks: map<nat, nat>, traced: set<nat>)
  {
    && (forall v {:trigger OwnLockAfter(w, mem, traced, v)} :: v in traced ==> OwnLockAfter(w, mem, traced, v))
    && (forall r {:trigger ClassLockAfter(w, locks, traced, r)} ::
          r in w.classes ==> ClassLockAfter(w, locks, traced, r))
  }

  /** An own lock word is right exactly when it survives untouched. */
  ghost predicate OwnLockAfter(w: World, mem: Memory, traced: set<nat>, v: nat)
  {
    LockSound(w, traced, w.Old(v, 1), Word(mem, w.Dest(v), 1)) <==> LockSurvives(w, w.Old(v, 1))
  }

  /**
   * The own lock word of a root is right after every collection. So is its class's, unless
   * an own lock of another instance disturbs it.
   */
  ghost predicate RootLocksAfter(w: World, mem: Memory, locks: map<nat, nat>, traced: set<nat>, v: nat)
  {
    var r := w.Old(v, 0);
    && LockSound(w, traced, w.Old(v, 1), Word(mem, w.Dest(v), 1))
    && (Undisturbed(w, r) ==> LockSound(w, traced, w.Lock0(r), Lock(locks, r)))
  }

  lemma FinishedLocks(w: World, s: State)
    requires w.WellFormed() && Finished(w, s)
    ensures LocksAfter(w, s.mem, s.locks, s.traced)
  {
    forall v | v in s.traced
      ensures OwnLockAfter(w, s.mem, s.traced, v)
    {
      OwnLockAfterCollection(w, s, v);
    }
    forall r | r in w.classes
      ensures ClassLockAfter(w, s.locks, s.traced, r)
    {
      ClassLockAfterCollection(w, s, r);
    }
  }

  lemma RootLocks(w: World, rank: map<nat, nat>, threads: seq<Ranges>, modules: seq<nat>, s: State, v: nat)
    requires w.WellFormed() && Ranked(w, rank) && Finished(w, s) && v in w.roots
    requires forall r :: r in w.roots <==> r in VmRoots(w, rank, threads, modules)
    ensures RootLocksAfter(w, s.mem, s.locks, s.traced, v)
  {
    RootLocksSurvive(w, rank, threads, modules, v);
    OwnLockAfterCollection(w, s, v);
    assert w.ObjectOk(v);
    ClassLockAfterCollection(w, s, w.Old(v, 0));
  }

  // ---------- the whole run ----------

  /**
   * A whole collection, run by the code: scan the roots into packets, trace every packet
   * entry pinned, and scan queued nodes until none is left. The result is the reachable
   * graph, moved; the weak stack has gained exactly the discovered weak references; and
   * the lock words are right exactly where LocksAfter and RootLocksAfter say.
   */
  method CollectGarbage(w: World, ranges: map<nat, Ranges>, modules: seq<nat>, head: MutatorThreadNode?,
                        factory: RootsWorkFactory, ghost spine: seq<MutatorThreadNode>, ghost rank: map<nat, nat>)
    returns (c: Collector)
    requires w.WellFormed() && Ranked(w, rank) && factory.AllReturned() && ListOf(head, spine)
    requires forall n :: n in spine ==>
               n.value in ranges && ThreadReadable(w, ranges[n.value]) && ThreadCovered(w, rank, ranges[n.value])
    requires ModulesCovered(w, rank, modules)
    requires forall r :: r in w.roots <==> r in VmRoots(w, rank, RangesOf(ranges, spine), modules)
    modifies factory
    ensures factory.AllReturned() && fresh(c)
    ensures c.w == w && Finished(w, c.S()) && Isomorphic(w, c.mem)
    ensures forall x :: x in c.traced <==> Reach(w, x)
    ensures w.leftover <= c.weakRefStack
    ensures forall a :: a in c.weakRefStack <==> a in w.leftover || Discovered(w, a)
    ensures HeapAfter(w, c.mem, c.traced, c.weakRefStack)
    ensures LocksAfter(w, c.mem, c.locks, c.traced)
    ensures forall v :: v in w.roots ==> RootLocksAfter(w, c.mem, c.locks, c.traced, v)
  {
    HeadersAreReadable(w);
    var scanner := new RootScanner(w, ranges, modules);
    var earlier := |factory.packets|;
    ghost var threadPackets, moduleBuffer := scanner.ScanVmSpecificRoots(head, factory, spine, rank);
    var packets := factory.packets[earlier..];
    var weak := scanner.weakRefStack;
    assert weak == WeakAfterScan(w, Flatten(packets));
    c := TraceAll(w, packets, weak);
    FinishedInPlainTerms(w, c.S());
    forall v | v in w.roots
      ensures RootLocksAfter(w, c.mem, c.locks, c.traced, v)
    {
      RootLocks(w, rank, RangesOf(ranges, spine), modules, c.S(), v);
    }
  }

  /** From the packets to an empty queue. */
  method TraceAll(w: World, packets: seq<seq<nat>>, weak: seq<nat>) returns (c: Collector)
    requires w.WellFormed() && weak == WeakAfterScan(w, Flatten(packets))
    requires forall r :: r in w.roots <==> r in Flatten(packets)
    ensures fresh(c) && c.w == w && Outcome(w, c.S())
  {
    ghost var roots := Flatten(packets);
    c := new Collector(w, weak);
    TracePackets(c, packets, weak);
    ScanRecordsWeak(w, roots);
    StartKeeps(w, weak, roots);
    ghost var picks := c.Drain([]);
    OutcomeOf(w, weak, roots, picks);
  }

  ghost predicate Outcome(w: World, s: State)
  {
    && Finished(w, s) && Isomorphic(w, s.mem)
    && (forall x :: x in s.traced <==> Reach(w, x))
    && w.leftover <= s.weak && (forall a :: a in s.weak <==> a in w.leftover || Discovered(w, a))
    && LocksAfter(w, s.mem, s.locks, s.traced)
  }

  lemma OutcomeOf(w: World, weak: seq<nat>, roots: seq<nat>, picks: seq<nat>)
    requires IsCollection(w, weak, roots, picks) && Collect(w, weak, roots, picks).queue == []
    ensures Outcome(w, Collect(w, weak, roots, picks))
  {
    EvacuationPreservesGraph(w, weak, roots, picks);
    WeakReferencesDiscovered(w, weak, roots, picks);
    CollectionFinishes(w, weak, roots, picks);
    FinishedLocks(w, Collect(w, weak, roots, picks));
  }

  /** One entry of packet i: it is a root, and tracing it extends the traced prefix by it. */
  lemma PacketEntry(w: World, s: State, packets: seq<seq<nat>>, i: nat, j: nat)
    requires i < |packets| && j < |packets[i]|
    ensures var before := Flatten(packets[..i]);
            && packets[i][j] in Flatten(packets)
            && TraceRoots(w, s, before + packets[i][..j + 1]) ==
               Trace(w, TraceRoots(w, s, before + packets[i][..j]), packets[i][j])
  {
    var before, packet := Flatten(packets[..i]), packets[i];
    PacketsSplit(packets, i);
    assert packet[j] in before + packet;
    assert before + packet[..j + 1] == (before + packet[..j]) + [packet[j]];
    TraceRootsSnoc(w, s, before + packet[..j], packet[j]);
  }

  lemma PacketsSplit(packets: seq<seq<nat>>, i: nat)
    requires i < |packets|
    ensures Flatten(packets[..i + 1]) == Flatten(packets[..i]) + packets[i]
    ensures forall r :: r in Flatten(packets[..i]) + packets[i] ==> r in Flatten(packets)
  {
    hide Flatten;
    TakeOneMore(packets, i);
    FlattenSnoc(packets[..i], packets[i]);
    PrefixDelivered(packets, i + 1);
  }

  lemma TakeOneMore(packets: seq<seq<nat>>, i: nat)
    requires i < |packets|
    ensures packets[..i + 1] == packets[..i] + [packets[i]]
  {
  }

  lemma PrefixDelivered(packets: seq<seq<nat>>, i: nat)
    requires i <= |packets|
    ensures forall r :: r in Flatten(packets[..i]) ==> r in Flatten(packets)
  {
    var head, rest := packets[..i], packets[i..];
    assert packets == head + rest;
    FlattenConcat(head, rest);
  }

  method TracePacket(c: Collector, packets: seq<seq<nat>>, i: nat, weak: seq<nat>)
    requires i < |packets| && c.w.WellFormed()
    requires forall r :: r in Flatten(packets) ==> r in c.w.roots
    requires c.S() == TraceRoots(c.w, Begin(c.w, weak), Flatten(packets[..i]))
    modifies c
    ensures c.S() == TraceRoots(c.w, Begin(c.w, weak), Flatten(packets[..i + 1]))
  {
    var packet := packets[i];
    ghost var before := Flatten(packets[..i]);
    PacketsSplit(packets, i);
    assert before + packet[..0] == before;
    for j := 0 to |packet|
      invariant c.S() == TraceRoots(c.w, Begin(c.w, weak), before + packet[..j])
    {
      PacketEntry(c.w, Begin(c.w, weak), packets, i, j);
      c.TracePinnedRoot(packet[j]);
    }
    assert packet[..|packet|] == packet;
  }

  /** Traces every entry of every packet, in order. */
  method TracePackets(c: Collector, packets: seq<seq<nat>>, weak: seq<nat>)
    requires c.w.WellFormed() && c.S() == Begin(c.w, weak)
    requires forall r :: r in Flatten(packets) ==> r in c.w.roots
    modifies c
    ensures c.S() == TraceRoots(c.w, Begin(c.w, weak), Flatten(packets))
  {
    var i := 0;
    while i < |packets|
      invariant i <= |packets|
      invariant c.S() == TraceRoots(c.w, Begin(c.w, weak), Flatten(packets[..i]))
    {
      TracePacket(c, packets, i, weak);
      i := i + 1;
    }
    assert packets[..i] == packets;
  }
}
