// In what order the engine serves events: exactly when its queue stays a heap,
// and that events then fire by deadline.
module EngineOrder {
  import opened Common
  import opened HeapModel
  import opened HeapOrder
  import opened EngineTime
  import opened Engine
  import opened EngineSafety
  import opened EngineAtomic
  import opened EngineOvertaking

  // ----- The queue stays a heap exactly when every push fits, in every interleaving -----

  // An event pushed lands in a slot whose grandparent, if any, precedes it.
  predicate PushFits(s: State, a: Action)
    requires s.heap != []
  {
    Offered(s, a).Some? && |s.heap| - 1 < PRI_QUEUE_SIZE ==>
      |s.heap| < 4 || Precedes(s.heap[|s.heap| / 4], Offered(s, a).value)
  }

  ghost predicate PushesAlwaysFit(s: State, actions: seq<Action>)
    requires s.heap != []
    decreases |actions|
  {
    actions != [] && Step(s, actions[0]).Some? ==>
      && PushFits(s, actions[0])
      && (StepKeepsArray(s, actions[0]); PushesAlwaysFit(Step(s, actions[0]).value, actions[1..]))
  }

  ghost predicate AlwaysHeapOrdered(s: State, actions: seq<Action>)
    requires s.heap != []
    decreases |actions|
  {
    && HeapOrdered(Precedes, s.heap)
    && (actions != [] && Step(s, actions[0]).Some? ==>
          (StepKeepsArray(s, actions[0]); AlwaysHeapOrdered(Step(s, actions[0]).value, actions[1..])))
  }

  // What a step does to the queue.
  lemma StepHeap(s: State, a: Action)
    requires s.heap != [] && Step(s, a).Some?
    ensures Step(s, a).value.heap ==
            if Offered(s, a).Some? && |s.heap| - 1 < PRI_QUEUE_SIZE then Pushed(Precedes, s.heap, Offered(s, a).value)
            else if a.PopEvent? && |s.heap| > 1 then Popped(Precedes, s.heap)
            else s.heap
  {
  }

  lemma StepStaysHeapIff(s: State, a: Action)
    requires s.heap != [] && HeapOrdered(Precedes, s.heap) && Step(s, a).Some?
    ensures HeapOrdered(Precedes, Step(s, a).value.heap) <==> PushFits(s, a)
  {
    StepHeap(s, a);
    PrecedesIsTotalPreorder();
    if Offered(s, a).Some? {
      PushKeepsHeapIff(Precedes, s.heap, Offered(s, a).value);
    } else if |s.heap| > 1 {
      RemovalKeepsHeapIff(Precedes, s.heap, 1);
    }
  }

  lemma {:induction false} QueueStaysHeapIff(s: State, actions: seq<Action>)
    requires s.heap != [] && HeapOrdered(Precedes, s.heap)
    ensures AlwaysHeapOrdered(s, actions) <==> PushesAlwaysFit(s, actions)
    decreases |actions|
  {
    if actions != [] && Step(s, actions[0]).Some? {
      StepKeepsArray(s, actions[0]);
      StepStaysHeapIff(s, actions[0]);
      if PushFits(s, actions[0]) {
        QueueStaysHeapIff(Step(s, actions[0]).value, actions[1..]);
      }
    }
  }

  // ----- Firing order, when scheduling is one step -----

  // The queue is a heap; fired events are in order, precede every pending one,
  // and lie in the past.
  ghost predicate Served(s: State) {
    && s.heap != [] && HeapOrdered(Precedes, s.heap)
    && InOrder(Precedes, s.fired)
    && (forall x, y :: x in s.fired && y in Items(s.heap) ==> Precedes(x, y))
    && (forall x :: x in s.fired ==> NotLater(x.time, ClockAt(s.clock)))
  }

  lemma ClockMovesOn(x: Time, c: nat, delta: nat)
    requires NotLater(x, ClockAt(c))
    ensures NotLater(x, ClockAt(c + delta))
  {
  }

  lemma PastPrecedesScheduled(x: Time, c: nat, timeout: nat)
    requires NotLater(x, ClockAt(c))
    ensures NotLater(x, Scheduled(ClockAt(c), timeout))
  {
  }

  lemma ScheduleServes(s: State, a: Action)
    requires Served(s) && a.Schedule? && PushFits(s, a)
    ensures Served(DoSchedule(s, a.thread, a.timeout, a.contended))
  {
    var s', e := DoSchedule(s, a.thread, a.timeout, a.contended), Offered(s, a).value;
    assert s'.clock == s.clock && s'.fired == s.fired;
    PrecedesIsTotalPreorder();
    PushKeepsHeapIff(Precedes, s.heap, e);
    PushAddsOne(Precedes, s.heap, e);
    forall x | x in s.fired ensures Precedes(x, e) {
      PastPrecedesScheduled(x.time, s.clock, a.timeout);
    }
  }

  lemma PeekedIsRoot(s: State)
    requires RootTracked(s) && PeekHolds(s) && (s.pc.Firing? || s.pc.Popping?)
    ensures s.peeked.Some? && |s.heap| > 1 && s.heap[1] == s.peeked.value
  {
  }

  // What fires precedes all that is pending.
  lemma FiringIsFirst(s: State)
    requires HeapOrdered(Precedes, s.heap) && RootTracked(s) && PeekHolds(s) && s.pc.Firing?
    ensures s.peeked.Some? && s.peeked.value in Items(s.heap)
    ensures forall y :: y in Items(s.heap) ==> Precedes(s.peeked.value, y)
  {
    PeekedIsRoot(s);
    PrecedesIsTotalPreorder();
    RootOutranksAll(Precedes, s.heap);
  }

  lemma FireServes(s: State)
    requires Served(s) && RootTracked(s) && PeekHolds(s) && Timed(s) && s.pc.Firing?
    ensures s.peeked.Some? && Served(DoFire(s))
  {
    FiringIsFirst(s);
    var e := s.peeked.value;
    ExpiredComesFirst(ClockAt(s.peekedAt), e.time, ClockAt(s.clock), 0);
    forall i | 0 <= i < |s.fired| ensures Precedes(s.fired[i], e) {
      assert s.fired[i] in s.fired;
    }
  }

  lemma PopServes(s: State)
    requires Served(s)
    ensures Served(DoPop(s))
  {
    if |s.heap| > 1 {
      PrecedesIsTotalPreorder();
      RemovalKeepsHeapIff(Precedes, s.heap, 1);
      RemovalTakesOneIff(Precedes, s.heap, 1);
    }
  }

  lemma QuietServes(s: State, s': State)
    requires Served(s) && s'.heap == s.heap && s'.fired == s.fired && s.clock <= s'.clock
    ensures Served(s')
  {
    forall x | x in s.fired ensures NotLater(x.time, ClockAt(s'.clock)) {
      ClockMovesOn(x.time, s.clock, s'.clock - s.clock);
    }
  }

  lemma StepServes(s: State, a: Action)
    requires AtomicInvariant(s) && Served(s) && AtomicAction(a) && PushFits(s, a) && Step(s, a).Some?
    ensures Served(Step(s, a).value)
  {
    if a.Schedule? {
      ScheduleServes(s, a);
    } else if a.Fire? {
      FireServes(s);
    } else if a.PopEvent? {
      PopServes(s);
    } else {
      QuietServes(s, Step(s, a).value);
    }
  }

  lemma {:induction false} RunServes(s: State, actions: seq<Action>)
    requires AtomicInvariant(s) && Served(s) && Atomic(actions) && PushesAlwaysFit(s, actions)
    requires Run(s, actions).Some?
    ensures Served(Run(s, actions).value)
    decreases |actions|
  {
    if actions != [] {
      StepKeepsArray(s, actions[0]);
      StepKeepsAtomic(s, actions[0]);
      StepServes(s, actions[0]);
      RunServes(Step(s, actions[0]).value, actions[1..]);
    }
  }

  lemma InOrderWithin(s: State, i: nat, j: nat)
    requires Served(s) && i < j < |s.fired|
    requires forall x :: x in s.fired ==> Deadline(x.time)
    ensures EngineTime.Total(s.fired[i].time) <= EngineTime.Total(s.fired[j].time) + 999_998
    ensures Normal(s.fired[i].time) && Normal(s.fired[j].time) ==>
              EngineTime.Total(s.fired[i].time) <= EngineTime.Total(s.fired[j].time)
  {
    assert s.fired[i] in s.fired && s.fired[j] in s.fired;
    NotLaterIff(s.fired[i].time, s.fired[j].time);
  }

  lemma FiredAreDeadlines(s: State)
    requires Conserved(s) && Timed(s) && FiredIsPopped(s)
    ensures forall x :: x in s.fired ==> Deadline(x.time)
  {
    forall x | x in s.fired ensures Deadline(x.time) {
      if x in s.popped {
        assert x in multiset(s.popped) + Items(s.heap);
        assert x in multiset(s.scheduled);
      }
    }
  }

  // While every push fits, events fire in the order of the comparator, each
  // before everything that is pending: by deadline on carried times, and up to
  // 999,998 microseconds otherwise.
  lemma FiringFollowsDeadlines(s0: State, actions: seq<Action>, s: State)
    requires Initial(s0) && Atomic(actions) && PushesAlwaysFit(s0, actions) && Run(s0, actions) == Some(s)
    ensures InOrder(Precedes, s.fired)
    ensures s.heap != [] && forall x, y :: x in s.fired && y in Items(s.heap) ==> Precedes(x, y)
    ensures s.pc.Firing? ==> s.peeked.Some? && forall y :: y in Items(s.heap) ==> Precedes(s.peeked.value, y)
    ensures forall i, j :: 0 <= i < j < |s.fired| ==>
              && EngineTime.Total(s.fired[i].time) <= EngineTime.Total(s.fired[j].time) + 999_998
              && (Normal(s.fired[i].time) && Normal(s.fired[j].time) ==>
                    EngineTime.Total(s.fired[i].time) <= EngineTime.Total(s.fired[j].time))
  {
    InitiallyInvariant(s0);
    RunServes(s0, actions);
    AtomicReachable(s0, actions, s);
    FiredAreDeadlines(s);
    forall i, j | 0 <= i < j < |s.fired|
      ensures EngineTime.Total(s.fired[i].time) <= EngineTime.Total(s.fired[j].time) + 999_998
      ensures Normal(s.fired[i].time) && Normal(s.fired[j].time) ==>
                EngineTime.Total(s.fired[i].time) <= EngineTime.Total(s.fired[j].time)
    {
      InOrderWithin(s, i, j);
    }
    if s.pc.Firing? {
      FiringIsFirst(s);
    }
  }
}
