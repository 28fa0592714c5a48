// What a root scan's report contains, in which order, and when its recursion ends.
module RootProperties {
  import opened Abi
  import opened Heap
  import opened RootScanning

  // ---------- monitors come first ----------

  ghost predicate Preceded(w: World, reported: seq<nat>, i: nat)
    requires i < |reported|
  {
    forall m :: m in Monitors(w, reported[i]) ==> m in reported[..i]
  }

  /** Every valid monitor of a reported object is reported before it. */
  ghost predicate MonitorsPrecede(w: World, reported: seq<nat>)
  {
    forall i {:trigger Preceded(w, reported, i)} :: 0 <= i < |reported| ==> Preceded(w, reported, i)
  }

  lemma PrecedeConcat(w: World, a: seq<nat>, b: seq<nat>)
    requires MonitorsPrecede(w, a) && MonitorsPrecede(w, b)
    ensures MonitorsPrecede(w, a + b)
  {
    var r := a + b;
    forall i | 0 <= i < |r|
      ensures Preceded(w, r, i)
    {
      if i < |a| {
        assert r[..i] == a[..i] && r[i] == a[i];
        assert Preceded(w, a, i);
      } else {
        assert r[..i] == a + b[..i - |a|] && r[i] == b[i - |a|];
        assert Preceded(w, b, i - |a|);
      }
    }
  }

  lemma PrecedeLast(w: World, before: seq<nat>, o: nat)
    requires MonitorsPrecede(w, before) && forall m :: m in Monitors(w, o) ==> m in before
    ensures MonitorsPrecede(w, before + [o])
  {
    var r := before + [o];
    forall i | 0 <= i < |r|
      ensures Preceded(w, r, i)
    {
      if i < |before| {
        assert r[..i] == before[..i] && r[i] == before[i];
        assert Preceded(w, before, i);
      } else {
        assert r[..i] == before && r[i] == o;
      }
    }
  }

  lemma {:induction false} LockClosurePrecedes(w: World, rank: map<nat, nat>, o: nat)
    requires Ranked(w, rank) && o in rank
    ensures MonitorsPrecede(w, LockClosure(w, rank, o)) && o in LockClosure(w, rank, o)
    decreases rank[o], 0
  {
    assert AboveMonitors(w, rank, o);
    ClosureOfPrecedes(w, rank, Monitors(w, o), rank[o]);
    PrecedeLast(w, ClosureOf(w, rank, Monitors(w, o), rank[o]), o);
  }

  lemma {:induction false} ClosureOfPrecedes(w: World, rank: map<nat, nat>, objects: seq<nat>, bound: nat)
    requires Ranked(w, rank) && forall m :: m in objects ==> m in rank && rank[m] < bound
    ensures MonitorsPrecede(w, ClosureOf(w, rank, objects, bound))
    ensures forall m :: m in objects ==> m in ClosureOf(w, rank, objects, bound)
    decreases bound, 0, |objects|
  {
    if objects != [] {
      var front, last := objects[..|objects| - 1], objects[|objects| - 1];
      ClosureOfPrecedes(w, rank, front, bound);
      LockClosurePrecedes(w, rank, last);
      PrecedeConcat(w, ClosureOf(w, rank, front, bound), LockClosure(w, rank, last));
    }
  }

  lemma FieldPrecedes(w: World, rank: map<nat, nat>, field: nat)
    requires Ranked(w, rank)
    ensures MonitorsPrecede(w, FieldClosure(w, rank, field))
  {
    if ValidField(w, field) && field in rank {
      LockClosurePrecedes(w, rank, field);
    }
  }

  lemma {:induction false} RangePrecedes(w: World, rank: map<nat, nat>, start: int, end: int)
    requires Ranked(w, rank)
    ensures MonitorsPrecede(w, RangeClosure(w, rank, start, end))
    decreases end - start
  {
    if start <= end {
      FieldPrecedes(w, rank, Word(w.mem0, start, 0));
      RangePrecedes(w, rank, start + 8, end);
      PrecedeConcat(w, WordClosure(w, rank, Word(w.mem0, start, 0)), RangeClosure(w, rank, start + 8, end));
    }
  }

  lemma ThreadPrecedes(w: World, rank: map<nat, nat>, r: Ranges)
    requires Ranked(w, rank)
    ensures MonitorsPrecede(w, ThreadClosure(w, rank, r))
  {
    RangePrecedes(w, rank, r.stackTop, r.stackBottom);
    RangePrecedes(w, rank, r.regs, r.regs + 8 * r.regsSize);
    PrecedeConcat(w, RangeClosure(w, rank, r.stackTop, r.stackBottom),
                  RangeClosure(w, rank, r.regs, r.regs + 8 * r.regsSize));
  }

  lemma {:induction false} ThreadsPrecede(w: World, rank: map<nat, nat>, threads: seq<Ranges>)
    requires Ranked(w, rank)
    ensures MonitorsPrecede(w, ThreadsClosure(w, rank, threads))
  {
    if threads != [] {
      var front, r := threads[..|threads| - 1], threads[|threads| - 1];
      ThreadsPrecede(w, rank, front);
      ThreadPrecedes(w, rank, r);
      PrecedeConcat(w, ThreadsClosure(w, rank, front), ThreadClosure(w, rank, r));
    }
  }

  lemma {:induction false} ModulesPrecede(w: World, rank: map<nat, nat>, modules: seq<nat>)
    requires Ranked(w, rank)
    ensures MonitorsPrecede(w, ModulesClosure(w, rank, modules))
  {
    if modules != [] {
      var front, last := modules[..|modules| - 1], modules[|modules| - 1];
      ModulesPrecede(w, rank, front);
      FieldPrecedes(w, rank, last);
      PrecedeConcat(w, ModulesClosure(w, rank, front), FieldClosure(w, rank, last));
    }
  }

  /** In the whole report, every valid monitor of a reported object comes before it. */
  lemma RootsListMonitorsFirst(w: World, rank: map<nat, nat>, threads: seq<Ranges>, modules: seq<nat>)
    requires Ranked(w, rank)
    ensures MonitorsPrecede(w, VmRoots(w, rank, threads, modules))
  {
    ThreadsPrecede(w, rank, threads);
    ModulesPrecede(w, rank, modules);
    PrecedeConcat(w, ThreadsClosure(w, rank, threads), ModulesClosure(w, rank, modules));
  }

  // ---------- in which order words are scanned ----------

  /** A range is scanned from its first word to its last: first any part of it, then the rest. */
  lemma {:induction false} RangeInOrder(w: World, rank: map<nat, nat>, start: int, n: nat, end: int)
    requires Ranked(w, rank) && start + 8 * n <= end + 8
    ensures RangeClosure(w, rank, start, end) ==
            RangeClosure(w, rank, start, start + 8 * n - 8) + RangeClosure(w, rank, start + 8 * n, end)
    ensures start <= end ==> RangeClosure(w, rank, start, start) == WordClosure(w, rank, Word(w.mem0, start, 0))
    decreases n
  {
    hide WordClosure;
    if start <= end {
      assert RangeClosure(w, rank, start + 8, start) == [];
    }
    if n > 0 {
      RangeInOrder(w, rank, start + 8, n - 1, end);
      var last := start + 8 * n - 8;
      var rest, tail := RangeClosure(w, rank, start + 8, last), RangeClosure(w, rank, last + 8, end);
      assert RangeClosure(w, rank, start + 8, end) == rest + tail;
      Associative(WordClosure(w, rank, Word(w.mem0, start, 0)), rest, tail);
    }
  }

  lemma {:induction false} ThreadsInOrder(w: World, rank: map<nat, nat>, a: seq<Ranges>, b: seq<Ranges>)
    requires Ranked(w, rank)
    ensures ThreadsClosure(w, rank, a + b) == ThreadsClosure(w, rank, a) + ThreadsClosure(w, rank, b)
    decreases |b|
  {
    hide Ranked;
    hide ThreadClosure;
    if b == [] {
      assert a + b == a;
    } else {
      var front, last := b[..|b| - 1], b[|b| - 1];
      ThreadsInOrder(w, rank, a, front);
      assert (a + b)[..|a + b| - 1] == a + front;
      Associative(ThreadsClosure(w, rank, a), ThreadsClosure(w, rank, front), ThreadClosure(w, rank, last));
    }
  }

  lemma {:induction false} ModulesInOrder(w: World, rank: map<nat, nat>, a: seq<nat>, b: seq<nat>)
    requires Ranked(w, rank)
    ensures ModulesClosure(w, rank, a + b) == ModulesClosure(w, rank, a) + ModulesClosure(w, rank, b)
    decreases |b|
  {
    hide Ranked;
    hide FieldClosure;
    if b == [] {
      assert a + b == a;
    } else {
      var front, last := b[..|b| - 1], b[|b| - 1];
      ModulesInOrder(w, rank, a, front);
      assert (a + b)[..|a + b| - 1] == a + front;
      Associative(ModulesClosure(w, rank, a), ModulesClosure(w, rank, front), FieldClosure(w, rank, last));
    }
  }

  lemma ThreadInOrder(w: World, rank: map<nat, nat>, before: seq<Ranges>, t: Ranges, after: seq<Ranges>)
    requires Ranked(w, rank)
    ensures ThreadsClosure(w, rank, before + [t] + after) ==
            ThreadsClosure(w, rank, before) +
            (RangeClosure(w, rank, t.stackTop, t.stackBottom) +
             RangeClosure(w, rank, t.regs, t.regs + 8 * t.regsSize)) +
            ThreadsClosure(w, rank, after)
  {
    hide RangeClosure;
    ThreadsInOrder(w, rank, before + [t], after);
    assert (before + [t])[..|before|] == before;
  }

  lemma ModuleInOrder(w: World, rank: map<nat, nat>, before: seq<nat>, m: nat, after: seq<nat>)
    requires Ranked(w, rank)
    ensures ModulesClosure(w, rank, before + [m] + after) ==
            ModulesClosure(w, rank, before) + FieldClosure(w, rank, m) + ModulesClosure(w, rank, after)
  {
    hide FieldClosure;
    ModulesInOrder(w, rank, before + [m], after);
    assert (before + [m])[..|before|] == before;
  }

  /**
   * The threads are reported in the order of the list, each with its stack before its registers, and after
   * them the modules in their order.
   */
  lemma ReportInOrder(w: World, rank: map<nat, nat>, before: seq<Ranges>, t: Ranges, after: seq<Ranges>,
                      first: seq<nat>, m: nat, last: seq<nat>)
    requires Ranked(w, rank)
    ensures VmRoots(w, rank, before + [t] + after, first + [m] + last) ==
            (ThreadsClosure(w, rank, before) +
             (RangeClosure(w, rank, t.stackTop, t.stackBottom) +
              RangeClosure(w, rank, t.regs, t.regs + 8 * t.regsSize)) +
             ThreadsClosure(w, rank, after)) +
            (ModulesClosure(w, rank, first) + FieldClosure(w, rank, m) + ModulesClosure(w, rank, last))
  {
    hide ThreadsClosure;
    hide ModulesClosure;
    ThreadInOrder(w, rank, before, t, after);
    ModuleInOrder(w, rank, first, m, last);
  }

  // ---------- exactly what is reported ----------

  ghost predicate IsMonitorPath(w: World, path: seq<nat>)
  {
    |path| > 0 && forall i :: 0 <= i < |path| - 1 ==> path[i + 1] in Monitors(w, path[i])
  }

  /** Following inflated locks from o leads to x. */
  ghost predicate LeadsTo(w: World, o: nat, x: nat)
  {
    exists path :: IsMonitorPath(w, path) && path[0] == o && path[|path| - 1] == x
  }

  lemma LeadsOn(w: World, o: nat, m: nat, x: nat)
    requires m in Monitors(w, o) && LeadsTo(w, m, x)
    ensures LeadsTo(w, o, x)
  {
    var path :| IsMonitorPath(w, path) && path[0] == m && path[|path| - 1] == x;
    var longer := [o] + path;
    forall i | 0 <= i < |longer| - 1
      ensures longer[i + 1] in Monitors(w, longer[i])
    {
      if i > 0 {
        assert path[(i - 1) + 1] in Monitors(w, path[i - 1]);
      }
    }
    assert IsMonitorPath(w, longer) && longer[|longer| - 1] == x;
  }

  lemma LeadsVia(w: World, o: nat, x: nat) returns (m: nat)
    requires LeadsTo(w, o, x) && x != o
    ensures m in Monitors(w, o) && LeadsTo(w, m, x)
  {
    var path :| IsMonitorPath(w, path) && path[0] == o && path[|path| - 1] == x;
    var rest := path[1..];
    forall i | 0 <= i < |rest| - 1
      ensures rest[i + 1] in Monitors(w, rest[i])
    {
      assert path[(i + 1) + 1] in Monitors(w, path[i + 1]);
    }
    m := rest[0];
    assert path[0 + 1] in Monitors(w, path[0]);
    assert IsMonitorPath(w, rest) && rest[|rest| - 1] == x;
  }

  /** Following inflated locks from one of the objects leads to x. */
  ghost predicate OneLeadsTo(w: World, objects: seq<nat>, x: nat)
  {
    exists m :: m in objects && LeadsTo(w, m, x)
  }

  lemma OneLeadsToSnoc(w: World, all: seq<nat>, x: nat)
    requires all != []
    ensures OneLeadsTo(w, all, x) <==> OneLeadsTo(w, all[..|all| - 1], x) || LeadsTo(w, all[|all| - 1], x)
  {
    assert all == all[..|all| - 1] + [all[|all| - 1]];
  }

  lemma LeadsToStep(w: World, o: nat, x: nat)
    ensures LeadsTo(w, o, x) <==> x == o || OneLeadsTo(w, Monitors(w, o), x)
  {
    if x == o {
      assert IsMonitorPath(w, [o]) && [o][0] == o;
    } else if LeadsTo(w, o, x) {
      var m := LeadsVia(w, o, x);
    }
    if m :| m in Monitors(w, o) && LeadsTo(w, m, x) {
      LeadsOn(w, o, m, x);
    }
  }

  lemma {:induction false} InLockClosure(w: World, rank: map<nat, nat>, o: nat, x: nat)
    requires Ranked(w, rank) && o in rank
    ensures x in LockClosure(w, rank, o) <==> LeadsTo(w, o, x)
    decreases rank[o], 0
  {
    LeadsToStep(w, o, x);
    assert AboveMonitors(w, rank, o);
    InClosureOf(w, rank, Monitors(w, o), rank[o], x);
  }

  lemma {:induction false} InClosureOf(w: World, rank: map<nat, nat>, objects: seq<nat>, bound: nat, x: nat)
    requires Ranked(w, rank) && forall m :: m in objects ==> m in rank && rank[m] < bound
    ensures x in ClosureOf(w, rank, objects, bound) <==> OneLeadsTo(w, objects, x)
    decreases bound, 0, |objects|
  {
    if objects != [] {
      var front, last := objects[..|objects| - 1], objects[|objects| - 1];
      InClosureOf(w, rank, front, bound, x);
      InLockClosure(w, rank, last, x);
      OneLeadsToSnoc(w, objects, x);
    }
  }

  /** A word scanned between two addresses, both included, is r. */
  ghost predicate ScannedBetween(w: World, start: int, end: int, r: nat)
  {
    exists n :: ScannedAt(w, start, end, n, r)
  }

  ghost predicate ScannedAt(w: World, start: int, end: int, n: int, r: nat)
  {
    0 <= n && start + 8 * n <= end && Word(w.mem0, start, n) == r
  }

  lemma ScannedSplit(w: World, start: int, end: int, r: nat)
    requires start <= end
    ensures ScannedBetween(w, start, end, r) <==> r == Word(w.mem0, start, 0) || ScannedBetween(w, start + 8, end, r)
  {
    if n :| ScannedAt(w, start, end, n, r) {
      if n > 0 {
        assert ScannedAt(w, start + 8, end, n - 1, r);
      }
    }
    var next := start + 8;
    if n :| ScannedAt(w, next, end, n, r) {
      assert ScannedAt(w, start, end, n + 1, r);
    }
    if r == Word(w.mem0, start, 0) {
      assert ScannedAt(w, start, end, 0, r);
    }
  }

  /** Marking the field r reports x. */
  ghost predicate FromField(w: World, rank: map<nat, nat>, r: nat, x: nat)
  {
    ValidField(w, r) && r in rank && LeadsTo(w, r, x)
  }

  lemma InFieldClosure(w: World, rank: map<nat, nat>, r: nat, x: nat)
    requires Ranked(w, rank)
    ensures x in FieldClosure(w, rank, r) <==> FromField(w, rank, r, x)
  {
    if ValidField(w, r) && r in rank {
      InLockClosure(w, rank, r, x);
    }
  }

  ghost predicate FromWord(w: World, rank: map<nat, nat>, r: nat, x: nat)
  {
    r % Alignment(w.cfg) == 0 && FromField(w, rank, r, x)
  }

  ghost predicate FromRange(w: World, rank: map<nat, nat>, start: int, end: int, x: nat)
  {
    exists r: nat :: ScannedBetween(w, start, end, r) && FromWord(w, rank, r, x)
  }

  lemma FromRangeSplit(w: World, rank: map<nat, nat>, start: int, end: int, x: nat)
    requires start <= end
    ensures FromRange(w, rank, start, end, x) <==>
            FromWord(w, rank, Word(w.mem0, start, 0), x) || FromRange(w, rank, start + 8, end, x)
  {
    forall r: nat
      ensures ScannedBetween(w, start, end, r) <==>
              r == Word(w.mem0, start, 0) || ScannedBetween(w, start + 8, end, r)
    {
      ScannedSplit(w, start, end, r);
    }
  }

  lemma {:induction false} InRangeClosure(w: World, rank: map<nat, nat>, start: int, end: int, x: nat)
    requires Ranked(w, rank)
    ensures x in RangeClosure(w, rank, start, end) <==> FromRange(w, rank, start, end, x)
    decreases end - start
  {
    if start <= end {
      InRangeClosure(w, rank, start + 8, end, x);
      InFieldClosure(w, rank, Word(w.mem0, start, 0), x);
      FromRangeSplit(w, rank, start, end, x);
    }
  }

  /** A word the scan takes for a root: on some thread's stack or in its registers, or a module. */
  ghost predicate IsRootWord(w: World, threads: seq<Ranges>, modules: seq<nat>, r: nat)
  {
    && w.cfg.heapStart <= r < w.cfg.heapEnd && r in w.objects
    && (r in modules || (r % Alignment(w.cfg) == 0 && OnSomeThread(w, threads, r)))
  }

  ghost predicate OnSomeThread(w: World, threads: seq<Ranges>, r: nat)
  {
    exists t :: t in threads && OnThread(w, t, r)
  }

  ghost predicate OnThread(w: World, t: Ranges, r: nat)
  {
    ScannedBetween(w, t.stackTop, t.stackBottom, r) || ScannedBetween(w, t.regs, t.regs + 8 * t.regsSize, r)
  }

  ghost predicate FromThread(w: World, rank: map<nat, nat>, t: Ranges, x: nat)
  {
    FromRange(w, rank, t.stackTop, t.stackBottom, x) || FromRange(w, rank, t.regs, t.regs + 8 * t.regsSize, x)
  }

  ghost predicate FromThreads(w: World, rank: map<nat, nat>, threads: seq<Ranges>, x: nat)
  {
    exists t :: t in threads && FromThread(w, rank, t, x)
  }

  lemma FromThreadsSplit(w: World, rank: map<nat, nat>, front: seq<Ranges>, t: Ranges, x: nat)
    ensures FromThreads(w, rank, front + [t], x) <==> FromThreads(w, rank, front, x) || FromThread(w, rank, t, x)
  {
    assert t in front + [t];
    if FromThreads(w, rank, front, x) {
      var u :| u in front && FromThread(w, rank, u, x);
      assert u in front + [t];
    }
  }

  lemma InThreadClosure(w: World, rank: map<nat, nat>, t: Ranges, x: nat)
    requires Ranked(w, rank)
    ensures x in ThreadClosure(w, rank, t) <==> FromThread(w, rank, t, x)
  {
    InRangeClosure(w, rank, t.stackTop, t.stackBottom, x);
    InRangeClosure(w, rank, t.regs, t.regs + 8 * t.regsSize, x);
  }

  lemma {:induction false} InThreadsClosure(w: World, rank: map<nat, nat>, threads: seq<Ranges>, x: nat)
    requires Ranked(w, rank)
    ensures x in ThreadsClosure(w, rank, threads) <==> FromThreads(w, rank, threads, x)
  {
    if threads != [] {
      var front, t := threads[..|threads| - 1], threads[|threads| - 1];
      InThreadsClosure(w, rank, front, x);
      InThreadClosure(w, rank, t, x);
      FromThreadsSplit(w, rank, front, t, x);
      assert threads == front + [t];
    }
  }

  ghost predicate FromModules(w: World, rank: map<nat, nat>, modules: seq<nat>, x: nat)
  {
    exists r :: r in modules && FromField(w, rank, r, x)
  }

  lemma {:induction false} InModulesClosure(w: World, rank: map<nat, nat>, modules: seq<nat>, x: nat)
    requires Ranked(w, rank)
    ensures x in ModulesClosure(w, rank, modules) <==> FromModules(w, rank, modules, x)
  {
    if modules != [] {
      var front, last := modules[..|modules| - 1], modules[|modules| - 1];
      InModulesClosure(w, rank, front, x);
      InFieldClosure(w, rank, last, x);
      assert modules == front + [last];
    }
  }

  /** The rank covers every root word, and through them everything the scan comes across. */
  ghost predicate RootsCovered(w: World, rank: map<nat, nat>, threads: seq<Ranges>, modules: seq<nat>)
  {
    (forall t :: t in threads ==> ThreadCovered(w, rank, t)) && ModulesCovered(w, rank, modules)
  }

  lemma RangeCoveredExactly(w: World, rank: map<nat, nat>, start: int, end: int)
    ensures RangeCovered(w, rank, start, end) <==>
            forall r: nat :: ScannedBetween(w, start, end, r) ==> WordCovered(w, rank, r)
  {
    if RangeCovered(w, rank, start, end) {
      forall r: nat | ScannedBetween(w, start, end, r)
        ensures WordCovered(w, rank, r)
      {
        var n :| ScannedAt(w, start, end, n, r);
        assert CoveredAt(w, rank, start, n);
      }
    }
    if forall r: nat :: ScannedBetween(w, start, end, r) ==> WordCovered(w, rank, r) {
      forall n | 0 <= n && start + 8 * n <= end
        ensures CoveredAt(w, rank, start, n)
      {
        assert ScannedAt(w, start, end, n, Word(w.mem0, start, n));
      }
    }
  }

  lemma ThreadCoveredExactly(w: World, rank: map<nat, nat>, t: Ranges)
    ensures ThreadCovered(w, rank, t) <==> forall r: nat :: OnThread(w, t, r) ==> WordCovered(w, rank, r)
  {
    RangeCoveredExactly(w, rank, t.stackTop, t.stackBottom);
    RangeCoveredExactly(w, rank, t.regs, t.regs + 8 * t.regsSize);
  }

  /** What the scanning methods ask of the rank is that it covers the root words, and nothing else. */
  lemma RootsCoveredExactly(w: World, rank: map<nat, nat>, threads: seq<Ranges>, modules: seq<nat>)
    ensures RootsCovered(w, rank, threads, modules) <==>
            forall r :: IsRootWord(w, threads, modules, r) ==> r in rank
  {
    forall t | t in threads
      ensures ThreadCovered(w, rank, t) <==> forall r: nat :: OnThread(w, t, r) ==> WordCovered(w, rank, r)
    {
      ThreadCoveredExactly(w, rank, t);
    }
    if forall r :: IsRootWord(w, threads, modules, r) ==> r in rank {
      forall t, r: nat | t in threads && OnThread(w, t, r)
        ensures WordCovered(w, rank, r)
      {
        assert r % Alignment(w.cfg) == 0 && ValidField(w, r) ==> IsRootWord(w, threads, modules, r);
      }
      forall m | m in modules
        ensures Covered(w, rank, m)
      {
        assert ValidField(w, m) ==> IsRootWord(w, threads, modules, m);
      }
    }
  }

  lemma FromThreadExactly(w: World, rank: map<nat, nat>, t: Ranges, x: nat)
    ensures FromThread(w, rank, t, x) <==> exists r: nat :: OnThread(w, t, r) && FromWord(w, rank, r, x)
  {
  }

  /** No root is missed and nothing else is reported: exactly the root words and what their locks lead to. */
  lemma RootsListExactly(w: World, rank: map<nat, nat>, threads: seq<Ranges>, modules: seq<nat>, x: nat)
    requires Ranked(w, rank) && RootsCovered(w, rank, threads, modules)
    ensures x in VmRoots(w, rank, threads, modules) <==>
            exists r: nat :: IsRootWord(w, threads, modules, r) && LeadsTo(w, r, x)
  {
    InThreadsClosure(w, rank, threads, x);
    InModulesClosure(w, rank, modules, x);
    RootsCoveredExactly(w, rank, threads, modules);
    if FromThreads(w, rank, threads, x) {
      var t :| t in threads && FromThread(w, rank, t, x);
      FromThreadExactly(w, rank, t, x);
      var r: nat :| OnThread(w, t, r) && FromWord(w, rank, r, x);
      assert IsRootWord(w, threads, modules, r);
    }
    if FromModules(w, rank, modules, x) {
      var r :| r in modules && FromField(w, rank, r, x);
      assert IsRootWord(w, threads, modules, r);
    }
    if r: nat :| IsRootWord(w, threads, modules, r) && LeadsTo(w, r, x) {
      assert FromField(w, rank, r, x);
      if r !in modules {
        var t :| t in threads && OnThread(w, t, r);
        FromThreadExactly(w, rank, t, x);
      }
    }
  }

  // ---------- the recursion ends exactly when there is a rank ----------

  /** Marking o needs at most `depth` nested calls. */
  ghost predicate EndsWithin(w: World, o: nat, depth: nat)
    decreases depth
  {
    depth > 0 && forall m :: m in Monitors(w, o) ==> EndsWithin(w, m, depth - 1)
  }

  ghost predicate Ends(w: World, o: nat)
  {
    exists depth :: EndsWithin(w, o, depth)
  }

  lemma {:induction false} RankedEnds(w: World, rank: map<nat, nat>, o: nat)
    requires Ranked(w, rank) && o in rank
    ensures EndsWithin(w, o, rank[o] + 1)
    decreases rank[o]
  {
    assert AboveMonitors(w, rank, o);
    forall m | m in Monitors(w, o)
      ensures EndsWithin(w, m, rank[o])
    {
      RankedEnds(w, rank, m);
      MoreDepth(w, m, rank[m] + 1, rank[o]);
    }
  }

  lemma {:induction false} MoreDepth(w: World, o: nat, d: nat, e: nat)
    requires EndsWithin(w, o, d) && d <= e
    ensures EndsWithin(w, o, e)
    decreases d
  {
    forall m | m in Monitors(w, o)
      ensures EndsWithin(w, m, e - 1)
    {
      MoreDepth(w, m, d - 1, e - 1);
    }
  }

  ghost predicate IsLeastDepth(w: World, o: nat, least: nat)
  {
    EndsWithin(w, o, least) && forall e :: 0 <= e < least ==> !EndsWithin(w, o, e)
  }

  lemma {:induction false} LeastDepthExists(w: World, o: nat, d: nat)
    requires EndsWithin(w, o, d)
    ensures exists least: nat :: IsLeastDepth(w, o, least)
    decreases d
  {
    if e :| 0 <= e < d && EndsWithin(w, o, e) {
      LeastDepthExists(w, o, e);
    } else {
      assert IsLeastDepth(w, o, d);
    }
  }

  ghost function Depth(w: World, o: nat): (least: nat)
    requires Ends(w, o)
    ensures IsLeastDepth(w, o, least)
  {
    var d: nat :| EndsWithin(w, o, d);
    LeastDepthExists(w, o, d);
    var least: nat :| IsLeastDepth(w, o, least);
    least
  }

  lemma MonitorsEnd(w: World, o: nat, m: nat)
    requires Ends(w, o) && m in Monitors(w, o)
    ensures m in w.objects && Ends(w, m) && Depth(w, m) < Depth(w, o)
  {
    var depth := Depth(w, o);
    assert IsLeastDepth(w, o, depth);
    assert EndsWithin(w, m, depth - 1);
    assert IsLeastDepth(w, m, Depth(w, m));
  }

  /**
   * The unguarded recursion through inflated locks ends for all of some objects exactly when there is
   * a rank that covers them.
   */
  lemma MarkingEndsExactly(w: World, some: set<nat>)
    requires some <= w.objects
    ensures (exists rank :: Ranked(w, rank) && some <= rank.Keys) <==> (forall o :: o in some ==> Ends(w, o))
  {
    if rank :| Ranked(w, rank) && some <= rank.Keys {
      forall o | o in some
        ensures Ends(w, o)
      {
        RankedEnds(w, rank, o);
      }
    }
    if forall o :: o in some ==> Ends(w, o) {
      var rank := map o | o in w.objects && Ends(w, o) :: Depth(w, o);
      forall o | o in rank
        ensures AboveMonitors(w, rank, o)
      {
        forall m | m in Monitors(w, o)
          ensures m in rank && rank[m] < rank[o]
        {
          MonitorsEnd(w, o, m);
        }
      }
      assert Ranked(w, rank) && some <= rank.Keys;
    }
  }

  /** The report does not depend on which rank witnesses that the recursion ends. */
  lemma {:induction false} ClosureIgnoresRank(w: World, rank: map<nat, nat>, rank': map<nat, nat>, o: nat)
    requires Ranked(w, rank) && Ranked(w, rank') && o in rank && o in rank'
    ensures LockClosure(w, rank, o) == LockClosure(w, rank', o)
    decreases rank[o], 0
  {
    assert AboveMonitors(w, rank, o) && AboveMonitors(w, rank', o);
    ClosuresIgnoreRank(w, rank, rank', Monitors(w, o), rank[o], rank'[o]);
  }

  lemma {:induction false} ClosuresIgnoreRank(w: World, rank: map<nat, nat>, rank': map<nat, nat>,
                                              objects: seq<nat>, bound: nat, bound': nat)
    requires Ranked(w, rank) && Ranked(w, rank')
    requires forall m :: m in objects ==> m in rank && rank[m] < bound && m in rank' && rank'[m] < bound'
    ensures ClosureOf(w, rank, objects, bound) == ClosureOf(w, rank', objects, bound')
    decreases bound, 0, |objects|
  {
    if objects != [] {
      ClosuresIgnoreRank(w, rank, rank', objects[..|objects| - 1], bound, bound');
      ClosureIgnoresRank(w, rank, rank', objects[|objects| - 1]);
    }
  }
}
