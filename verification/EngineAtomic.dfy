// The timer protocol when select_engine_schedule_add, from reading the clock
// to the wake-up, is one step.
module EngineAtomic {
  import opened Common
  import opened HeapModel
  import opened EngineTime
  import opened Engine
  import opened EngineSafety

  predicate AtomicAction(a: Action) {
    !a.Stamp? && !a.Enqueue? && !a.Tell?
  }

  ghost predicate Atomic(actions: seq<Action>) {
    forall i :: 0 <= i < |actions| ==> AtomicAction(actions[i])
  }

  // No event queued since the peek precedes the peeked one once the wait is
  // over, and while it lasts its message is in the pipe.
  ghost predicate PeekHolds(s: State) {
    && s.calls == map[]
    && (s.pc.Selecting? && s.pipe == [] ==> s.since == [])
    && (s.pc.Firing? || s.pc.Popping? ==>
          s.peeked.Some? && forall x :: x in s.since ==> Precedes(s.peeked.value, x))
  }

  // The events popped are those fired, in the same order.
  predicate FiredIsPopped(s: State) {
    if s.pc.Popping? then s.peeked.Some? && s.fired == s.popped + [s.peeked.value] else s.fired == s.popped
  }

  ghost predicate DistinctIds(es: seq<Event>, bound: nat) {
    && (forall i :: 0 <= i < |es| ==> es[i].id < bound)
    && (forall i, j :: 0 <= i < j < |es| ==> es[i].id != es[j].id)
  }

  // Every call is accounted for by an event of its own.
  ghost predicate Numbered(s: State) {
    DistinctIds(s.scheduled, s.nextId) && |s.scheduled| + |s.dropped| == s.nextId
  }

  lemma ScheduleKeepsPeek(s: State, t: nat, timeout: nat, contended: bool)
    requires Timed(s) && PeekHolds(s) && s.heap != []
    ensures PeekHolds(DoSchedule(s, t, timeout, contended))
  {
    var s' := DoSchedule(s, t, timeout, contended);
    assert s'.calls == map[];
    if s.pc.Firing? || s.pc.Popping? {
      ExpiredComesFirst(ClockAt(s.peekedAt), s.peeked.value.time, ClockAt(s.clock), timeout);
    }
  }

  lemma StepKeepsPeek(s: State, a: Action)
    requires Timed(s) && PeekHolds(s) && s.heap != [] && AtomicAction(a) && Step(s, a).Some?
    ensures PeekHolds(Step(s, a).value)
  {
    match a
    case Schedule(t, timeout, contended) => ScheduleKeepsPeek(s, t, timeout, contended);
    case _ =>
  }

  lemma StepFiresWhatItPops(s: State, a: Action)
    requires Conserved(s) && RootTracked(s) && PeekHolds(s) && FiredIsPopped(s) && Step(s, a).Some?
    ensures FiredIsPopped(Step(s, a).value)
  {
    if a.PopEvent? {
      PoppingIsRoot(s);
    } else if a.Fire? {
      assert s.fired == s.popped;
    } else {
      OthersFireNothing(s, a);
    }
  }

  lemma OthersFireNothing(s: State, a: Action)
    requires s.heap != [] && !a.Fire? && !a.PopEvent? && Step(s, a).Some?
    ensures var s' := Step(s, a).value;
            && s'.fired == s.fired && s'.popped == s.popped && (s'.pc.Popping? <==> s.pc.Popping?)
            && (s.pc.Popping? ==> s'.peeked == s.peeked)
  {
  }

  lemma ScheduleNumbers(s: State, t: nat, timeout: nat, contended: bool)
    requires s.heap != [] && Numbered(s)
    ensures Numbered(DoSchedule(s, t, timeout, contended))
  {
    var s' := DoEnqueue(DoStamp(s, t, timeout), t);
    assert Numbered(s');
  }

  // Only a call makes or queues events.
  lemma OthersMakeNone(s: State, a: Action)
    requires s.heap != [] && AtomicAction(a) && !a.Schedule? && Step(s, a).Some?
    ensures var s' := Step(s, a).value;
            s'.scheduled == s.scheduled && s'.dropped == s.dropped && s'.nextId == s.nextId
  {
  }

  lemma StepNumbers(s: State, a: Action)
    requires s.heap != [] && Numbered(s) && AtomicAction(a) && Step(s, a).Some?
    ensures Numbered(Step(s, a).value)
  {
    if a.Schedule? {
      ScheduleNumbers(s, a.thread, a.timeout, a.contended);
    } else {
      OthersMakeNone(s, a);
    }
  }

  ghost predicate AtomicInvariant(s: State) {
    Invariant(s) && PeekHolds(s) && FiredIsPopped(s) && Numbered(s)
  }

  lemma StepKeepsAtomic(s: State, a: Action)
    requires AtomicInvariant(s) && AtomicAction(a) && Step(s, a).Some?
    ensures AtomicInvariant(Step(s, a).value)
  {
    StepConserves(s, a);
    StepTracks(s, a);
    StepAnnounces(s, a);
    StepIsTimed(s, a);
    StepKeepsPeek(s, a);
    StepFiresWhatItPops(s, a);
    StepNumbers(s, a);
  }

  lemma {:induction false} RunKeepsAtomic(s: State, actions: seq<Action>)
    requires AtomicInvariant(s) && Atomic(actions) && Run(s, actions).Some?
    ensures AtomicInvariant(Run(s, actions).value)
    decreases |actions|
  {
    if actions != [] {
      StepKeepsArray(s, actions[0]);
      StepKeepsAtomic(s, actions[0]);
      RunKeepsAtomic(Step(s, actions[0]).value, actions[1..]);
    }
  }

  lemma AtomicReachable(s0: State, actions: seq<Action>, s: State)
    requires Initial(s0) && Atomic(actions) && Run(s0, actions) == Some(s)
    ensures AtomicInvariant(s)
  {
    InitiallyInvariant(s0);
    RunKeepsAtomic(s0, actions);
  }

  // ----- Main results -----

  // After the callback of an event has run, that event is the one popped.
  lemma PoppedIsFired(s0: State, actions: seq<Action>, s: State)
    requires Initial(s0) && Atomic(actions) && Run(s0, actions) == Some(s) && s.pc.Popping?
    ensures |s.heap| > 1 && s.fired == s.popped + [s.heap[1]]
    ensures Step(s, PopEvent).Some? && Step(s, PopEvent).value.fired == Step(s, PopEvent).value.popped
  {
    AtomicReachable(s0, actions, s);
    PoppingIsRoot(s);
  }

  lemma PoppingIsRoot(s: State)
    requires Conserved(s) && RootTracked(s) && PeekHolds(s) && FiredIsPopped(s) && s.pc.Popping?
    ensures |s.heap| > 1 && s.fired == s.popped + [s.heap[1]]
  {
    PopConserves(s);
  }

  lemma DistinctOnce(es: seq<Event>, bound: nat, e: Event)
    requires DistinctIds(es, bound)
    ensures multiset(es)[e] <= 1
    decreases |es|
  {
    if es != [] {
      var front, last := es[..|es| - 1], es[|es| - 1];
      assert es == front + [last];
      DistinctOnce(front, bound, e);
      if e == last {
        assert forall i :: 0 <= i < |front| ==> front[i] == es[i];
        assert e !in front;
      }
    }
  }

  lemma FiredOnce(s: State, e: Event)
    requires Conserved(s) && FiredIsPopped(s) && DistinctIds(s.scheduled, s.nextId)
    ensures multiset(s.fired)[e] <= 1
  {
    DistinctOnce(s.scheduled, s.nextId, e);
    assert multiset(s.scheduled)[e] == multiset(s.popped)[e] + Items(s.heap)[e];
    if s.pc.Popping? {
      assert multiset(s.fired) == multiset(s.popped) + multiset{s.peeked.value};
    }
  }

  // No event fires twice, every call has an event that was accepted or dropped,
  // and at the top of the loop the accepted events have fired or are pending.
  lemma FiresAtMostOnce(s0: State, actions: seq<Action>, s: State)
    requires Initial(s0) && Atomic(actions) && Run(s0, actions) == Some(s)
    ensures forall e :: multiset(s.fired)[e] <= 1
    ensures |s.scheduled| + |s.dropped| == s.nextId
    ensures s.heap != [] && (!s.pc.Popping? ==> multiset(s.scheduled) == multiset(s.fired) + Items(s.heap))
  {
    AtomicReachable(s0, actions, s);
    forall e ensures multiset(s.fired)[e] <= 1 {
      FiredOnce(s, e);
    }
  }
}
