// The stop/resume synchronizer: GC workers send requests on a channel, one thread takes
// them in order, performs the upcalls and answers. Every step of every party is one
// event; a run is any interleaving of them after one initialisation.
module Synchronizer {

  datatype Request = Acquire(tls: nat) | Release(tls: nat)
  datatype Response = Acquired | Released
  datatype Upcall = StopAllMutators(tls: nat) | ResumeMutators(tls: nat)

  /** Where the synchronizer thread is in its loop. */
  datatype Phase =
    | LoopHead
    | Taken(req: Request)      // received, before the lock of the Acquire arm
    | Guarded(req: Request)    // holding the local lock
    | Called(req: Request)     // the upcall has returned
    | Answered(req: Request)   // the response is sent; the guard is dropped at the end of the arm

  datatype Sync = Sync(
    installed: bool,           // REQ_SENDER is the sender of the real channel
    running: bool,             // the synchronizer thread is in its loop
    lost: seq<Request>,        // sends that failed because the channel had no receiver
    accepted: seq<Request>, queue: seq<Request>, handled: seq<Request>,
    upcalls: seq<Upcall>, responses: seq<Response>,
    phase: Phase, locked: bool)

  datatype Event = Install | Spawn | Send(req: Request) | Advance

  const START := Sync(false, false, [], [], [], [], [], [], LoopHead, false)

  function UpcallFor(req: Request): Upcall
  {
    match req
    case Acquire(tls) => StopAllMutators(tls)
    case Release(tls) => ResumeMutators(tls)
  }

  function ResponseFor(req: Request): Response
  {
    if req.Acquire? then Acquired else Released
  }

  /** The thread blocks on an empty channel and on a held lock. */
  predicate CanAdvance(s: Sync)
  {
    && s.running
    && (s.phase.LoopHead? ==> s.queue != [])
    && (s.phase.Taken? && s.phase.req.Acquire? ==> !s.locked)
  }

  function Advanced(s: Sync): Sync
    requires CanAdvance(s)
  {
    match s.phase
    case LoopHead => s.(queue := s.queue[1..], phase := Taken(s.queue[0]))
    case Taken(req) =>
      if req.Acquire? then s.(phase := Guarded(req), locked := true)
      else s.(phase := Called(req), upcalls := s.upcalls + [UpcallFor(req)])
    case Guarded(req) => s.(phase := Called(req), upcalls := s.upcalls + [UpcallFor(req)])
    case Called(req) => s.(phase := Answered(req), responses := s.responses + [ResponseFor(req)])
    case Answered(req) =>
      s.(phase := LoopHead, handled := s.handled + [req], locked := if req.Acquire? then false else s.locked)
  }

  predicate Enabled(s: Sync, e: Event)
  {
    match e
    case Install => !s.installed
    case Spawn => s.installed && !s.running
    case Send(_) => true
    case Advance => CanAdvance(s)
  }

  function Next(s: Sync, e: Event): Sync
    requires Enabled(s, e)
  {
    match e
    case Install => s.(installed := true)
    case Spawn => s.(running := true)
    case Send(req) =>
      if s.installed then s.(accepted := s.accepted + [req], queue := s.queue + [req])
      else s.(lost := s.lost + [req])
    case Advance => Advanced(s)
  }

  ghost predicate IsRun(events: seq<Event>)
    decreases |events|, 0
  {
    events != [] ==> IsRun(events[..|events| - 1]) && Enabled(After(events[..|events| - 1]), events[|events| - 1])
  }

  ghost function After(events: seq<Event>): Sync
    requires IsRun(events)
    decreases |events|, 1
  {
    if events == [] then START else Next(After(events[..|events| - 1]), events[|events| - 1])
  }

  function Sends(events: seq<Event>): seq<Request>
  {
    if events == [] then []
    else
      Sends(events[..|events| - 1]) +
      (if events[|events| - 1].Send? then [events[|events| - 1].req] else [])
  }

  // ---------- what every interleaving keeps ----------

  function InHand(p: Phase): seq<Request> { if p.LoopHead? then [] else [p.req] }

  /** Requests whose upcall has been made. */
  function CalledFor(s: Sync): seq<Request>
  {
    s.handled + (if s.phase.Called? || s.phase.Answered? then [s.phase.req] else [])
  }

  /** Requests that have been answered. */
  function AnsweredFor(s: Sync): seq<Request>
  {
    s.handled + (if s.phase.Answered? then [s.phase.req] else [])
  }

  function Upcalls(reqs: seq<Request>): (r: seq<Upcall>)
    ensures |r| == |reqs|
  {
    seq(|reqs|, i requires 0 <= i < |reqs| => UpcallFor(reqs[i]))
  }

  function Responses(reqs: seq<Request>): (r: seq<Response>)
    ensures |r| == |reqs|
  {
    seq(|reqs|, i requires 0 <= i < |reqs| => ResponseFor(reqs[i]))
  }

  ghost predicate Inv(s: Sync)
  {
    && s.handled + InHand(s.phase) + s.queue == s.accepted
    && s.upcalls == Upcalls(CalledFor(s)) && s.responses == Responses(AnsweredFor(s))
    && (s.locked <==> !s.phase.LoopHead? && !s.phase.Taken? && s.phase.req.Acquire?)
    && (s.phase.Guarded? ==> s.phase.req.Acquire?)
    && (s.running ==> s.installed) && (!s.installed ==> s.accepted == [])
    && (!s.running ==> s.phase.LoopHead?)
  }

  lemma AdvanceKeepsInv(s: Sync)
    requires Inv(s) && CanAdvance(s)
    ensures Inv(Advanced(s))
  {
    var s' := Advanced(s);
    match s.phase
    case LoopHead =>
      assert s.handled + [] + s.queue == s.handled + [s.queue[0]] + s.queue[1..];
      assert CalledFor(s') == CalledFor(s) && AnsweredFor(s') == AnsweredFor(s);
    case Taken(req) =>
      assert Upcalls(s.handled + []) + [UpcallFor(req)] == Upcalls(s.handled + [req]);
    case Guarded(req) =>
      assert Upcalls(s.handled + []) + [UpcallFor(req)] == Upcalls(s.handled + [req]);
    case Called(req) =>
      assert Responses(s.handled + []) + [ResponseFor(req)] == Responses(s.handled + [req]);
    case Answered(req) =>
      assert s'.handled + [] == s.handled + [req];
      assert CalledFor(s') == CalledFor(s) && AnsweredFor(s') == AnsweredFor(s);
  }

  lemma NextKeepsInv(s: Sync, e: Event)
    requires Inv(s) && Enabled(s, e)
    ensures Inv(Next(s, e))
  {
    match e
    case Install =>
    case Spawn =>
    case Send(req) =>
      assert s.handled + InHand(s.phase) + (s.queue + [req]) == s.handled + InHand(s.phase) + s.queue + [req];
    case Advance =>
      AdvanceKeepsInv(s);
  }

  lemma {:induction false} RunKeepsInv(events: seq<Event>)
    requires IsRun(events)
    ensures Inv(After(events))
  {
    if events == [] {
      assert Upcalls([] + []) == [] && Responses([] + []) == [];
    } else {
      RunKeepsInv(events[..|events| - 1]);
      NextKeepsInv(After(events[..|events| - 1]), events[|events| - 1]);
    }
  }

  /** Sends are accepted in order from the moment the sender is installed; only earlier ones are lost. */
  lemma {:induction false} SendsAreLostOrAccepted(events: seq<Event>)
    requires IsRun(events)
    ensures var s := After(events); s.lost + s.accepted == Sends(events)
  {
    if events != [] {
      var before, e := events[..|events| - 1], events[|events| - 1];
      SendsAreLostOrAccepted(before);
      RunKeepsInv(before);
      var s := After(before);
      if e.Send? && !s.installed {
        assert s.lost + [] == s.lost && s.lost + [e.req] + [] == s.lost + [e.req];
      } else if e.Send? {
        assert s.lost + (s.accepted + [e.req]) == s.lost + s.accepted + [e.req];
      }
    }
  }

  /**
   * In every interleaving no request is lost, repeated or overtaken: the handled ones,
   * the one in hand and the queue are the accepted sends in order; the i-th upcall stops
   * the mutators if the i-th of these is an Acquire and resumes them if it is a Release, for
   * the same thread; the i-th response says which it was; and each lags by at most one.
   */
  lemma Conservation(events: seq<Event>)
    requires IsRun(events)
    ensures var s := After(events);
            && s.handled + InHand(s.phase) + s.queue == s.accepted
            && s.lost + s.accepted == Sends(events)
            && |s.handled| <= |s.responses| <= |s.upcalls| <= |s.handled| + 1
            && (forall i :: 0 <= i < |s.upcalls| ==>
                  && i < |s.accepted| && s.upcalls[i].tls == s.accepted[i].tls
                  && (s.upcalls[i].StopAllMutators? <==> s.accepted[i].Acquire?))
            && (forall i :: 0 <= i < |s.responses| ==>
                  i < |s.accepted| && (s.responses[i].Acquired? <==> s.accepted[i].Acquire?))
  {
    RunKeepsInv(events);
    SendsAreLostOrAccepted(events);
    var s := After(events);
    CalledIsPrefix(s);
  }

  /** The local lock is held only for an Acquire, and then all the time from its upcall to its answer. */
  lemma LockGuardsAcquire(events: seq<Event>)
    requires IsRun(events)
    ensures var s := After(events);
            && (s.locked ==> |s.handled| < |s.accepted| && s.accepted[|s.handled|].Acquire?)
            && (|s.responses| < |s.upcalls| ==>
                  |s.responses| < |s.accepted| && (s.locked <==> s.accepted[|s.responses|].Acquire?))
  {
    RunKeepsInv(events);
    var s := After(events);
    if !s.phase.LoopHead? {
      assert s.accepted[|s.handled|] == s.phase.req;
    }
  }

  lemma CalledIsPrefix(s: Sync)
    requires Inv(s)
    ensures CalledFor(s) <= s.accepted && AnsweredFor(s) <= CalledFor(s)
  {
    if s.phase.Called? || s.phase.Answered? {
      assert s.handled + [s.phase.req] + s.queue == s.accepted;
    } else {
      assert CalledFor(s) == s.handled;
      assert s.handled + (InHand(s.phase) + s.queue) == s.accepted;
    }
  }

  // ---------- progress ----------

  /** The local lock is free whenever the thread could want it, so it waits for nothing but requests. */
  lemma ThreadWaitsOnlyForRequests(events: seq<Event>)
    requires IsRun(events)
    ensures var s := After(events);
            && (s.phase.LoopHead? || s.phase.Taken? ==> !s.locked)
            && (CanAdvance(s) <==> s.running && !(s.phase.LoopHead? && s.queue == []))
  {
    RunKeepsInv(events);
  }

  function Cost(req: Request): nat { if req.Acquire? then 5 else 4 }

  function QueueCost(reqs: seq<Request>): nat
  {
    if reqs == [] then 0 else Cost(reqs[0]) + QueueCost(reqs[1..])
  }

  /** Steps the thread still has to take. */
  function Work(s: Sync): nat
  {
    QueueCost(s.queue) +
    match s.phase
    case LoopHead => 0
    case Taken(req) => Cost(req) - 1
    case Guarded(_) => 3
    case Called(_) => 2
    case Answered(_) => 1
  }

  lemma AdvanceDoesWork(s: Sync)
    requires CanAdvance(s) && Inv(s)
    ensures Work(Advanced(s)) == Work(s) - 1
    ensures Advanced(s).running && Advanced(s).accepted == s.accepted
  {
  }

  /** The thread's next n steps, when nobody else moves. */
  ghost predicate Advancing(s: Sync, n: nat, s': Sync)
    decreases n
  {
    if n == 0 then s == s' else CanAdvance(s) && Advancing(Advanced(s), n - 1, s')
  }

  lemma {:induction false} AdvancingOneMore(s: Sync, n: nat, s1: Sync, s2: Sync)
    requires Advancing(s, n, s1) && CanAdvance(s1) && s2 == Advanced(s1)
    ensures Advancing(s, n + 1, s2)
    decreases n
  {
    if n > 0 {
      AdvancingOneMore(Advanced(s), n - 1, s1, s2);
    }
  }

  function Advances(n: nat): seq<Event> { seq(n, _ => Advance) }

  /** Left alone, the thread serves every accepted request and comes to rest, in exactly that many steps. */
  lemma {:induction false} ThreadDrains(events: seq<Event>)
    requires IsRun(events) && After(events).running
    ensures var all := events + Advances(Work(After(events)));
            && IsRun(all)
            && After(all).queue == [] && After(all).phase.LoopHead? && After(all).handled == After(events).accepted
    decreases Work(After(events))
  {
    var s := After(events);
    RunKeepsInv(events);
    if CanAdvance(s) {
      var more := events + [Advance];
      assert more[..|more| - 1] == events;
      assert After(more) == Advanced(s);
      AdvanceDoesWork(s);
      ThreadDrains(more);
      assert more + Advances(Work(s) - 1) == events + Advances(Work(s));
    } else {
      ThreadWaitsOnlyForRequests(events);
      assert Work(s) == 0;
      assert events + Advances(0) == events;
      assert s.handled + [] + [] == s.handled;
    }
  }

  // ---------- safety ----------

  /** Whether the mutators are stopped after these upcalls. */
  function Stopped(upcalls: seq<Upcall>): bool
  {
    upcalls != [] && upcalls[|upcalls| - 1].StopAllMutators?
  }

  /** No upcall stops stopped mutators or resumes running ones. */
  ghost predicate NoMisfire(upcalls: seq<Upcall>)
  {
    upcalls != [] ==>
      var before, last := upcalls[..|upcalls| - 1], upcalls[|upcalls| - 1];
      NoMisfire(before) && (last.StopAllMutators? <==> !Stopped(before))
  }

  ghost predicate Alternates(reqs: seq<Request>)
  {
    forall i :: 0 <= i < |reqs| ==> (reqs[i].Acquire? <==> i % 2 == 0)
  }

  lemma AlternatesSnoc(reqs: seq<Request>)
    requires reqs != []
    ensures Alternates(reqs) <==>
            Alternates(reqs[..|reqs| - 1]) && (reqs[|reqs| - 1].Acquire? <==> (|reqs| - 1) % 2 == 0)
  {
    var front := reqs[..|reqs| - 1];
    assert forall i :: 0 <= i < |front| ==> front[i] == reqs[i];
  }

  lemma {:induction false} MisfireExactly(reqs: seq<Request>)
    ensures NoMisfire(Upcalls(reqs)) <==> Alternates(reqs)
  {
    if reqs != [] {
      var front := reqs[..|reqs| - 1];
      MisfireExactly(front);
      AlternatesSnoc(reqs);
      assert Upcalls(reqs)[..|reqs| - 1] == Upcalls(front);
      if front != [] {
        AlternatesSnoc(front);
      }
    }
  }

  /**
   * The thread never misfires if accepted requests alternate, beginning with Acquire;
   * and once everything accepted has been served, only if they did.
   */
  lemma MutatorsStoppedAndResumedInTurn(events: seq<Event>)
    requires IsRun(events)
    ensures var s := After(events);
            && (Alternates(s.accepted) ==> NoMisfire(s.upcalls))
            && (s.queue == [] && s.phase.LoopHead? ==> (NoMisfire(s.upcalls) <==> Alternates(s.accepted)))
  {
    RunKeepsInv(events);
    var s := After(events);
    CalledIsPrefix(s);
    MisfireExactly(CalledFor(s));
    if s.queue == [] && s.phase.LoopHead? {
      assert s.handled + [] + [] == s.handled;
      assert CalledFor(s) == s.accepted;
    }
  }

  /** At rest, the mutators are as the last accepted request asked. */
  lemma RestMatchesLastRequest(events: seq<Event>)
    requires IsRun(events)
    ensures var s := After(events);
            s.queue == [] && s.phase.LoopHead? ==>
              (Stopped(s.upcalls) <==> s.accepted != [] && s.accepted[|s.accepted| - 1].Acquire?)
  {
    RunKeepsInv(events);
    var s := After(events);
    if s.queue == [] && s.phase.LoopHead? {
      assert s.handled + [] + [] == s.handled;
      assert CalledFor(s) == s.accepted;
    }
  }

  /** A send, whatever it asks for, leaves the mutators as they are: stopped exactly if they were stopped before. */
  lemma SendLeavesMutators(events: seq<Event>, req: Request)
    requires IsRun(events)
    ensures var after := events + [Send(req)];
            IsRun(after) && (Stopped(After(after).upcalls) <==> Stopped(After(events).upcalls))
  {
    var after := events + [Send(req)];
    assert after[..|after| - 1] == events;
  }

  /** stop_all_mutators only sends: when it returns, the mutators may still be running. */
  lemma StopReturnsBeforeMutatorsStop(tls: nat)
    ensures var events := [Install, Spawn, Send(Acquire(tls))];
            && IsRun(events)
            && After(events).accepted == [Acquire(tls)] && !Stopped(After(events).upcalls)
  {
    var e1, e2, e3 := [Install], [Install, Spawn], [Install, Spawn, Send(Acquire(tls))];
    assert e1[..0] == [] && e2[..1] == e1 && e3[..2] == e2;
    assert IsRun([]) && IsRun(e1);
    assert After(e1) == START.(installed := true);
    assert IsRun(e2);
    assert After(e2) == START.(installed := true, running := true);
  }

  // ---------- the code ----------

  class Machine {
    var installed: bool
    var running: bool
    var lost: seq<Request>
    var accepted: seq<Request>
    var queue: seq<Request>
    var handled: seq<Request>
    var upcalls: seq<Upcall>
    var responses: seq<Response>
    var locked: bool
    ghost var phase: Phase

    ghost function S(): Sync
      reads this
    {
      Sync(installed, running, lost, accepted, queue, handled, upcalls, responses, phase, locked)
    }

    constructor ()
      ensures S() == START
    {
      installed, running, lost, accepted, queue := false, false, [], [], [];
      handled, upcalls, responses, locked, phase := [], [], [], false, LoopHead;
    }

    method Submit(req: Request)
      modifies this
      ensures S() == Next(old(S()), Send(req))
    {
      if installed {
        accepted, queue := accepted + [req], queue + [req];
      } else {
        lost := lost + [req];
      }
    }

    /** Collection::stop_all_mutators: sends, and does not wait for the answer. */
    method StopAllMutatorsRequest(tls: nat)
      modifies this
      ensures S() == Next(old(S()), Send(Acquire(tls)))
    {
      Submit(Acquire(tls));
    }

    /** Collection::resume_mutators. */
    method ResumeMutatorsRequest(tls: nat)
      modifies this
      ensures S() == Next(old(S()), Send(Release(tls)))
    {
      Submit(Release(tls));
    }

    /** scalanative_gc_init, up to the spawned thread entering its loop. */
    method Init()
      requires S() == START.(lost := lost)
      modifies this
      ensures S() == Next(Next(old(S()), Install), Spawn)
    {
      installed := true;
      running := true;
    }

    /** One turn of the thread's loop: receive, match, and run the arm. */
    method HandleNext()
      requires Inv(S()) && running && phase.LoopHead? && queue != []
      modifies this
      ensures Advancing(old(S()), Cost(old(queue)[0]), S())
      ensures Inv(S()) && running && phase.LoopHead?
      ensures queue == old(queue)[1..] && accepted == old(accepted)
    {
      ghost var s0 := S();
      var req := queue[0];
      queue, phase := queue[1..], Taken(req);
      TurnStep(s0, 0, s0, S());
      match req {
        case Acquire(tls) => HandleAcquire(tls, s0);
        case Release(tls) => HandleRelease(tls, s0);
      }
    }

    /** The Acquire arm, which holds the local lock from the upcall to the answer. */
    method HandleAcquire(tls: nat, ghost s0: Sync)
      requires Inv(S()) && running && phase == Taken(Acquire(tls)) && Advancing(s0, 1, S())
      modifies `locked, `upcalls, `responses, `handled, `phase
      ensures Advancing(s0, 5, S()) && Inv(S()) && phase.LoopHead? && !locked
      ensures upcalls == old(upcalls) + [StopAllMutators(tls)] && responses == old(responses) + [Acquired]
      ensures handled == old(handled) + [Acquire(tls)]
    {
      ghost var s1 := S();
      locked, phase := true, Guarded(Acquire(tls));
      TurnStep(s0, 1, s1, S());
      ghost var s2 := S();
      upcalls, phase := upcalls + [StopAllMutators(tls)], Called(Acquire(tls));
      TurnStep(s0, 2, s2, S());
      ghost var s3 := S();
      responses, phase := responses + [Acquired], Answered(Acquire(tls));
      TurnStep(s0, 3, s3, S());
      ghost var s4 := S();
      locked, handled, phase := false, handled + [Acquire(tls)], LoopHead;
      TurnStep(s0, 4, s4, S());
    }

    method HandleRelease(tls: nat, ghost s0: Sync)
      requires Inv(S()) && running && phase == Taken(Release(tls)) && Advancing(s0, 1, S())
      modifies `upcalls, `responses, `handled, `phase
      ensures Advancing(s0, 4, S()) && Inv(S()) && phase.LoopHead?
      ensures upcalls == old(upcalls) + [ResumeMutators(tls)] && responses == old(responses) + [Released]
      ensures handled == old(handled) + [Release(tls)]
    {
      ghost var s1 := S();
      upcalls, phase := upcalls + [ResumeMutators(tls)], Called(Release(tls));
      TurnStep(s0, 1, s1, S());
      ghost var s2 := S();
      responses, phase := responses + [Released], Answered(Release(tls));
      TurnStep(s0, 2, s2, S());
      ghost var s3 := S();
      handled, phase := handled + [Release(tls)], LoopHead;
      TurnStep(s0, 3, s3, S());
    }

    lemma TurnStep(s0: Sync, n: nat, s: Sync, s': Sync)
      requires Advancing(s0, n, s) && Inv(s) && CanAdvance(s) && s' == Advanced(s)
      ensures Advancing(s0, n + 1, s') && Inv(s')
    {
      AdvanceKeepsInv(s);
      AdvancingOneMore(s0, n, s, s');
    }

    /** The loop over the channel, until it is empty. */
    method Serve()
      requires Inv(S()) && running && phase.LoopHead?
      modifies this
      ensures Inv(S()) && phase.LoopHead? && queue == []
      ensures handled == accepted == old(accepted)
      ensures |upcalls| == |responses| == |accepted|
      ensures forall i :: 0 <= i < |accepted| ==>
                && upcalls[i].tls == accepted[i].tls && (upcalls[i].StopAllMutators? <==> accepted[i].Acquire?)
                && (responses[i].Acquired? <==> accepted[i].Acquire?)
    {
      while queue != []
        invariant Inv(S()) && running && phase.LoopHead? && accepted == old(accepted)
        decreases |queue|
      {
        HandleNext();
      }
      assert handled + [] + [] == handled;
      assert CalledFor(S()) == handled && AnsweredFor(S()) == handled;
    }
  }
}
