// Safety of the timer protocol over all runs.
module EngineSafety {
  import opened Common
  import opened HeapModel
  import opened HeapOrder
  import opened EngineTime
  import opened Engine

  // ----- Steps that leave the queue and its history alone -----

  predicate Quiet(a: Action) {
    !a.Enqueue? && !a.Schedule? && !a.Peek? && !a.Fire? && !a.PopEvent?
  }

  // `s'` differs from `s` in nothing the conservation and tracking invariants
  // mention, and holds no event that `s` does not hold.
  predicate SameQueue(s: State, s': State) {
    && s'.heap == s.heap && s'.scheduled == s.scheduled && s'.fired == s.fired && s'.popped == s.popped
    && s'.since == s.since && s'.peeked == s.peeked && s'.peekedAt == s.peekedAt && s.clock <= s'.clock
    && (s'.pc.Popping? <==> s.pc.Popping?)
    && (s'.pc.Selecting? ==> s.pc.Selecting?)
    && (s'.pc.Firing? ==> s.pc.Firing? || MayTimeOut(s))
  }

  lemma QuietStep(s: State, a: Action)
    requires s.heap != [] && Quiet(a) && Step(s, a).Some?
    ensures SameQueue(s, Step(s, a).value)
  {
  }

  lemma StampSameQueue(s: State, t: nat, timeout: nat)
    ensures SameQueue(s, DoStamp(s, t, timeout))
  {
  }

  lemma TellSameQueue(s: State, t: nat, contended: bool)
    ensures SameQueue(s, DoTell(s, t, contended))
  {
  }

  lemma SameQueueConserves(s: State, s': State)
    requires SameQueue(s, s') && Conserved(s)
    ensures Conserved(s')
  {
  }

  lemma SameQueueTracks(s: State, s': State)
    requires SameQueue(s, s') && RootTracked(s)
    ensures RootTracked(s')
  {
  }

  lemma SameQueueIsTimed(s: State, s': State)
    requires SameQueue(s, s') && Timed(s)
    requires forall t :: t in s'.calls ==> Deadline(s'.calls[t].event.time)
    ensures Timed(s')
  {
  }

  // ----- Steps that queue an event -----

  lemma EnqueueConserves(s: State, t: nat)
    requires Conserved(s) && t in s.calls
    ensures Conserved(DoEnqueue(s, t))
  {
    PushAddsOne(Precedes, s.heap, s.calls[t].event);
  }

  lemma EnqueueTracks(s: State, t: nat)
    requires Conserved(s) && RootTracked(s) && t in s.calls
    ensures RootTracked(DoEnqueue(s, t))
  {
    var e, s' := s.calls[t].event, DoEnqueue(s, t);
    if |s.heap| - 1 < PRI_QUEUE_SIZE && Holding(s) && (forall x :: x in s'.since ==> Precedes(s.peeked.value, x)) {
      assert e in s'.since;
      assert forall x :: x in s.since ==> x in s'.since;
      PrecedesIsTotalPreorder();
      PushKeepsRoot(Precedes, s.heap, e);
    }
  }

  lemma EnqueueAnnounces(s: State, t: nat)
    requires s.heap != [] && Announced(s) && t in s.calls && s.calls[t].Stamped?
    ensures Announced(DoEnqueue(s, t))
  {
    var s' := DoEnqueue(s, t);
    if s.pc.Selecting? && s.pipe == [] {
      forall x | x in s'.since ensures exists u :: u in s'.calls && s'.calls[u] == Queued(x) {
        if x in s.since {
          var u :| u in s.calls && s.calls[u] == Queued(x);
          assert s'.calls[u] == Queued(x);
        } else {
          assert s'.calls[t] == Queued(x);
        }
      }
    }
  }

  lemma StampIsTimed(s: State, t: nat, timeout: nat)
    requires Timed(s)
    ensures Timed(DoStamp(s, t, timeout))
  {
    ScheduledIsExact(ClockAt(s.clock), timeout);
  }

  // ----- Each step keeps each invariant -----

  lemma PeekConserves(s: State)
    requires Conserved(s) && s.pc.Locked?
    ensures Conserved(DoPeek(s))
  {
    if |s.heap| > 1 {
      RootIsItem(s.heap);
    }
  }

  lemma PopConserves(s: State)
    requires Conserved(s) && s.pc.Popping?
    ensures Conserved(DoPop(s)) && |s.heap| > 1
  {
    assert s.peeked.value in Items(s.heap);
    PrecedesIsTotalPreorder();
    RemovalTakesOneIff(Precedes, s.heap, 1);
  }

  lemma FireConserves(s: State)
    requires Conserved(s) && s.pc.Firing?
    ensures Conserved(DoFire(s))
  {
  }

  lemma ScheduleConserves(s: State, t: nat, timeout: nat, contended: bool)
    requires Conserved(s)
    ensures Conserved(DoSchedule(s, t, timeout, contended))
  {
    var s1 := DoStamp(s, t, timeout);
    StampSameQueue(s, t, timeout);
    SameQueueConserves(s, s1);
    var s2 := DoEnqueue(s1, t);
    EnqueueConserves(s1, t);
    TellSameQueue(s2, t, contended);
    SameQueueConserves(s2, DoTell(s2, t, contended));
  }

  lemma StepConserves(s: State, a: Action)
    requires Conserved(s) && Step(s, a).Some?
    ensures Conserved(Step(s, a).value)
  {
    match a
    case Enqueue(t) => EnqueueConserves(s, t);
    case Schedule(t, timeout, contended) => ScheduleConserves(s, t, timeout, contended);
    case Peek => PeekConserves(s);
    case Fire => FireConserves(s);
    case PopEvent => PopConserves(s);
    case _ =>
      QuietStep(s, a);
      SameQueueConserves(s, Step(s, a).value);
  }

  lemma RootIsItem(h: seq<Event>)
    requires |h| > 1
    ensures h[1] in Items(h)
  {
    assert h[1] == h[1..][0];
  }

  lemma ScheduleTracks(s: State, t: nat, timeout: nat, contended: bool)
    requires Conserved(s) && RootTracked(s)
    ensures RootTracked(DoSchedule(s, t, timeout, contended))
  {
    var s1 := DoStamp(s, t, timeout);
    StampSameQueue(s, t, timeout);
    SameQueueConserves(s, s1);
    SameQueueTracks(s, s1);
    var s2 := DoEnqueue(s1, t);
    EnqueueTracks(s1, t);
    TellSameQueue(s2, t, contended);
    SameQueueTracks(s2, DoTell(s2, t, contended));
  }

  lemma StepTracks(s: State, a: Action)
    requires Conserved(s) && RootTracked(s) && Step(s, a).Some?
    ensures RootTracked(Step(s, a).value)
  {
    match a
    case Enqueue(t) => EnqueueTracks(s, t);
    case Schedule(t, timeout, contended) => ScheduleTracks(s, t, timeout, contended);
    case Peek =>
    case Fire =>
    case PopEvent =>
    case _ =>
      QuietStep(s, a);
      SameQueueTracks(s, Step(s, a).value);
  }

  lemma StepAnnounces(s: State, a: Action)
    requires s.heap != [] && Announced(s) && Step(s, a).Some?
    ensures Announced(Step(s, a).value)
  {
    var s' := Step(s, a).value;
    match a
    case Stamp(t, timeout) =>
      if s.pc.Selecting? && s.pipe == [] {
        forall x | x in s.since ensures exists u :: u in s'.calls && s'.calls[u] == Queued(x) {
          var u :| u in s.calls && s.calls[u] == Queued(x);
          assert s'.calls[u] == Queued(x);
        }
      }
    case Enqueue(t) => EnqueueAnnounces(s, t);
    case _ =>
  }

  lemma PeekIsTimed(s: State)
    requires Conserved(s) && Timed(s)
    ensures Timed(DoPeek(s))
  {
    if |s.heap| > 1 {
      RootIsItem(s.heap);
      assert s.heap[1] in multiset(s.scheduled);
    }
  }

  lemma FireIsTimed(s: State)
    requires Timed(s) && s.pc.Firing?
    ensures Timed(DoFire(s))
  {
    ExpiredComesFirst(ClockAt(s.peekedAt), s.peeked.value.time, ClockAt(s.clock), 0);
    WaitIff(ClockAt(s.peekedAt), s.peeked.value.time);
  }

  lemma EnqueueIsTimed(s: State, t: nat)
    requires s.heap != [] && Timed(s) && t in s.calls
    ensures Timed(DoEnqueue(s, t))
  {
  }

  lemma ScheduleIsTimed(s: State, t: nat, timeout: nat, contended: bool)
    requires s.heap != [] && Timed(s)
    ensures Timed(DoSchedule(s, t, timeout, contended))
  {
    var s1 := DoStamp(s, t, timeout);
    StampIsTimed(s, t, timeout);
    EnqueueIsTimed(s1, t);
    var s2 := DoEnqueue(s1, t);
    SameQueueIsTimed(s2, DoTell(s2, t, contended));
  }

  lemma QuietIsTimed(s: State, a: Action)
    requires s.heap != [] && Timed(s) && Quiet(a) && Step(s, a).Some?
    ensures Timed(Step(s, a).value)
  {
    QuietStep(s, a);
    if a.Stamp? {
      StampIsTimed(s, a.thread, a.timeout);
    } else {
      QuietCalls(s, a);
      SameQueueIsTimed(s, Step(s, a).value);
    }
  }

  lemma QuietCalls(s: State, a: Action)
    requires s.heap != [] && Quiet(a) && !a.Stamp? && Step(s, a).Some?
    ensures forall t :: t in Step(s, a).value.calls ==> t in s.calls && Step(s, a).value.calls[t] == s.calls[t]
  {
  }

  lemma StepIsTimed(s: State, a: Action)
    requires Conserved(s) && Timed(s) && Step(s, a).Some?
    ensures Timed(Step(s, a).value)
  {
    match a
    case Enqueue(t) => EnqueueIsTimed(s, t);
    case Schedule(t, timeout, contended) => ScheduleIsTimed(s, t, timeout, contended);
    case Peek => PeekIsTimed(s);
    case Fire => FireIsTimed(s);
    case PopEvent => PopIsTimed(s);
    case _ => QuietIsTimed(s, a);
  }

  lemma PopIsTimed(s: State)
    requires Timed(s)
    ensures Timed(DoPop(s))
  {
  }

  // ----- Runs -----

  ghost predicate Invariant(s: State) {
    Conserved(s) && RootTracked(s) && Announced(s) && Timed(s)
  }

  function Run(s: State, actions: seq<Action>): Option<State>
    requires s.heap != []
    decreases |actions|
  {
    if actions == [] then Some(s)
    else
      StepKeepsArray(s, actions[0]);
      match Step(s, actions[0])
      case Some(s') => Run(s', actions[1..])
      case None => None
  }

  lemma {:induction false} RunKeepsInvariant(s: State, actions: seq<Action>)
    requires Invariant(s) && Run(s, actions).Some?
    ensures Invariant(Run(s, actions).value)
    decreases |actions|
  {
    if actions != [] {
      var a := actions[0];
      StepKeepsArray(s, a);
      StepConserves(s, a);
      StepTracks(s, a);
      StepAnnounces(s, a);
      StepIsTimed(s, a);
      RunKeepsInvariant(Step(s, a).value, actions[1..]);
    }
  }

  lemma InitiallyInvariant(s: State)
    requires Initial(s)
    ensures Invariant(s)
  {
    assert s.heap[1..] == [];
  }

  lemma {:induction false} RunsOn(s: State, first: seq<Action>, mid: State, rest: seq<Action>)
    requires s.heap != [] && mid.heap != [] && Run(s, first) == Some(mid)
    ensures Run(s, first + rest) == Run(mid, rest)
    decreases |first|
  {
    if first == [] {
      assert first + rest == rest;
    } else {
      StepKeepsArray(s, first[0]);
      RunsOn(Step(s, first[0]).value, first[1..], mid, rest);
      assert (first + rest)[1..] == first[1..] + rest;
    }
  }

  // ----- Main results, for every interleaving -----

  predicate RootIsPeeked(s: State) {
    if s.peeked.Some? then |s.heap| > 1 && s.heap[1] == s.peeked.value else |s.heap| == 1
  }

  // No wake-up is lost: if, in select, the root is no longer what the engine
  // peeked at, a message is waiting or some thread, between its push and its
  // reload, is still to send one.
  lemma NoLostWakeUp(s0: State, actions: seq<Action>, s: State)
    requires Initial(s0) && Run(s0, actions) == Some(s)
    requires s.pc.Selecting? && !RootIsPeeked(s)
    ensures s.pipe != [] || exists t :: t in s.calls && s.calls[t].Queued? && s.calls[t].event in s.since
  {
    InitiallyInvariant(s0);
    RunKeepsInvariant(s0, actions);
    if s.pipe == [] {
      assert s.since != [];
      var x := s.since[0];
      assert x in s.since;
      var t :| t in s.calls && s.calls[t] == Queued(x);
    }
  }

  // The engine pops another event than the one whose callback ran only if an
  // event that precedes it was queued in between; and the queue is never empty
  // then, so that line 265 is not reached.
  lemma WrongPopNeedsEarlierEvent(s0: State, actions: seq<Action>, s: State)
    requires Initial(s0) && Run(s0, actions) == Some(s) && s.pc.Popping?
    ensures |s.heap| > 1 && s.fired != []
    ensures s.heap[1] == s.fired[|s.fired| - 1] || exists x :: x in s.since && !Precedes(s.fired[|s.fired| - 1], x)
  {
    InitiallyInvariant(s0);
    RunKeepsInvariant(s0, actions);
    PopConserves(s);
  }

  // Accepted events are popped or pending, and no callback runs early by more
  // than the missing carry allows.
  lemma EventsAccountedFor(s0: State, actions: seq<Action>, s: State)
    requires Initial(s0) && Run(s0, actions) == Some(s)
    ensures s.heap != [] && multiset(s.scheduled) == multiset(s.popped) + Items(s.heap)
    ensures forall x :: x in s.fired ==> NotEarly(x, s.clock)
  {
    InitiallyInvariant(s0);
    RunKeepsInvariant(s0, actions);
  }
}
