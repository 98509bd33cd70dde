// When the engine pops another event than the one whose callback ran, for every
// interleaving of clock reading, push and wake-up with the engine.
module EngineOvertaking {
  import opened Common
  import opened HeapModel
  import opened HeapOrder
  import opened EngineTime
  import opened Engine
  import opened EngineSafety
  import opened EngineAtomic

  // The event that an action offers to the queue.
  function Offered(s: State, a: Action): Option<Event> {
    match a
    case Enqueue(t) => if t in s.calls then Some(s.calls[t].event) else None
    case Schedule(_, timeout, _) => Some(Event(s.nextId, Scheduled(ClockAt(s.clock), timeout)))
    case _ => None
  }

  // There is room for the event, and it rises to the root.
  predicate TakesRoot(s: State, a: Action)
    requires s.heap != []
  {
    && Offered(s, a).Some?
    && |s.heap| - 1 < PRI_QUEUE_SIZE
    && Climbs(Precedes, s.heap + [Offered(s, a).value], |s.heap|)
  }

  // Whether an event has taken the root since the last peek of the run; `so` is
  // the answer for what came before.
  predicate Overtaken(s: State, actions: seq<Action>, so: bool)
    requires s.heap != []
    decreases |actions|
  {
    if actions == [] then so
    else
      StepKeepsArray(s, actions[0]);
      match Step(s, actions[0])
      case None => so
      case Some(s') => Overtaken(s', actions[1..], !actions[0].Peek? && (so || TakesRoot(s, actions[0])))
  }

  // No event is pushed twice, and one that is still to be pushed is none of
  // those pushed so far.
  ghost predicate Distinguished(s: State) {
    DistinctIds(s.scheduled, s.nextId) && Apart(s.calls, s.scheduled, s.nextId)
  }

  ghost predicate Apart(calls: map<nat, Call>, scheduled: seq<Event>, bound: nat) {
    && (forall t :: t in calls ==> calls[t].event.id < bound)
    && (forall t, x :: t in calls && calls[t].Stamped? && x in scheduled ==> x.id != calls[t].event.id)
    && (forall t, u :: t in calls && u in calls && t != u && calls[t].Stamped? && calls[u].Stamped? ==>
          calls[t].event.id != calls[u].event.id)
  }

  lemma PushIsApart(calls: map<nat, Call>, scheduled: seq<Event>, bound: nat, t: nat, e: Event)
    requires Apart(calls, scheduled, bound) && t in calls && calls[t] == Stamped(e)
    ensures Apart(calls[t := Queued(e)], scheduled, bound)
    ensures Apart(calls[t := Queued(e)], scheduled + [e], bound)
  {
  }

  lemma StampDistinguishes(s: State, t: nat, timeout: nat)
    requires Distinguished(s)
    ensures Distinguished(DoStamp(s, t, timeout))
  {
  }

  lemma EnqueueDistinguishes(s: State, t: nat)
    requires s.heap != [] && Distinguished(s) && t in s.calls && s.calls[t].Stamped?
    ensures Distinguished(DoEnqueue(s, t))
  {
    PushIsApart(s.calls, s.scheduled, s.nextId, t, s.calls[t].event);
  }

  lemma TellDistinguishes(s: State, t: nat, contended: bool)
    requires Distinguished(s)
    ensures Distinguished(DoTell(s, t, contended))
  {
  }

  // Other steps make, queue and hold no events.
  lemma OthersLeaveCalls(s: State, a: Action)
    requires s.heap != [] && !a.Stamp? && !a.Enqueue? && !a.Tell? && !a.Schedule? && Step(s, a).Some?
    ensures var s' := Step(s, a).value;
            s'.scheduled == s.scheduled && s'.calls == s.calls && s'.nextId == s.nextId
  {
  }

  lemma StepDistinguishes(s: State, a: Action)
    requires s.heap != [] && Distinguished(s) && Step(s, a).Some?
    ensures Distinguished(Step(s, a).value)
  {
    match a
    case Stamp(t, timeout) => StampDistinguishes(s, t, timeout);
    case Enqueue(t) => EnqueueDistinguishes(s, t);
    case Tell(t, contended) => TellDistinguishes(s, t, contended);
    case Schedule(t, timeout, contended) =>
      var s1 := DoStamp(s, t, timeout);
      StampDistinguishes(s, t, timeout);
      EnqueueDistinguishes(s1, t);
      TellDistinguishes(DoEnqueue(s1, t), t, contended);
    case _ => OthersLeaveCalls(s, a);
  }

  // While the engine holds a peeked event, that event is the root exactly when
  // no other has taken the root since.
  predicate RootAnswers(s: State, so: bool) {
    Holding(s) ==> |s.heap| > 1 && (s.heap[1] == s.peeked.value <==> !so)
  }

  lemma SameQueueAnswers(s: State, s': State, so: bool)
    requires SameQueue(s, s') && RootAnswers(s, so)
    ensures RootAnswers(s', so)
  {
  }

  lemma PeekedIsScheduled(s: State)
    requires Conserved(s) && Holding(s)
    ensures s.peeked.value in s.scheduled
  {
    assert s.peeked.value in multiset(s.scheduled);
  }

  lemma EnqueueAnswers(s: State, t: nat, so: bool)
    requires Conserved(s) && Distinguished(s) && RootAnswers(s, so) && t in s.calls && s.calls[t].Stamped?
    ensures RootAnswers(DoEnqueue(s, t), so || TakesRoot(s, Enqueue(t)))
  {
    if Holding(s) && |s.heap| - 1 < PRI_QUEUE_SIZE {
      PushRootIff(Precedes, s.heap, s.calls[t].event);
      PeekedIsScheduled(s);
    }
  }

  lemma ScheduleAnswers(s: State, a: Action, so: bool)
    requires Conserved(s) && Distinguished(s) && RootAnswers(s, so) && a.Schedule?
    ensures RootAnswers(DoSchedule(s, a.thread, a.timeout, a.contended), so || TakesRoot(s, a))
  {
    var s1 := DoStamp(s, a.thread, a.timeout);
    StampSameQueue(s, a.thread, a.timeout);
    SameQueueConserves(s, s1);
    SameQueueAnswers(s, s1, so);
    StampDistinguishes(s, a.thread, a.timeout);
    EnqueueAnswers(s1, a.thread, so);
    var s2 := DoEnqueue(s1, a.thread);
    TellSameQueue(s2, a.thread, a.contended);
    SameQueueAnswers(s2, DoTell(s2, a.thread, a.contended), so || TakesRoot(s, a));
  }

  lemma EngineAnswers(s: State, so: bool)
    requires s.heap != [] && RootAnswers(s, so)
    ensures RootAnswers(DoPeek(s), false)
    ensures s.pc.Firing? && s.peeked.Some? ==> RootAnswers(DoFire(s), so)
    ensures RootAnswers(DoPop(s), so)
  {
  }

  lemma StepAnswers(s: State, a: Action, so: bool)
    requires Conserved(s) && Distinguished(s) && RootAnswers(s, so) && Step(s, a).Some?
    ensures RootAnswers(Step(s, a).value, !a.Peek? && (so || TakesRoot(s, a)))
  {
    match a
    case Enqueue(t) => EnqueueAnswers(s, t, so);
    case Schedule(_, _, _) => ScheduleAnswers(s, a, so);
    case Peek => EngineAnswers(s, so);
    case Fire => EngineAnswers(s, so);
    case PopEvent => EngineAnswers(s, so);
    case _ =>
      QuietStep(s, a);
      SameQueueAnswers(s, Step(s, a).value, so);
  }

  lemma {:induction false} RunAnswers(s: State, actions: seq<Action>, so: bool)
    requires Conserved(s) && Distinguished(s) && RootAnswers(s, so) && Run(s, actions).Some?
    ensures RootAnswers(Run(s, actions).value, Overtaken(s, actions, so))
    decreases |actions|
  {
    if actions != [] {
      var a := actions[0];
      StepKeepsArray(s, a);
      StepConserves(s, a);
      StepDistinguishes(s, a);
      StepAnswers(s, a, so);
      RunAnswers(Step(s, a).value, actions[1..], !a.Peek? && (so || TakesRoot(s, a)));
    }
  }

  lemma PoppingAnswers(s: State, so: bool)
    requires Conserved(s) && RootAnswers(s, so) && s.pc.Popping?
    ensures |s.heap| > 1 && s.fired != [] && (s.heap[1] == s.fired[|s.fired| - 1] <==> !so)
  {
  }

  lemma ReachedAnswers(s0: State, actions: seq<Action>, s: State)
    requires Initial(s0) && Run(s0, actions) == Some(s)
    ensures Conserved(s) && RootAnswers(s, Overtaken(s0, actions, false))
  {
    InitiallyInvariant(s0);
    RunKeepsInvariant(s0, actions);
    RunAnswers(s0, actions, false);
  }

  // Over every interleaving: after a callback has run, the event popped is the
  // one that fired exactly when no event pushed since the last peek rose to the
  // root.
  lemma WrongPopIff(s0: State, actions: seq<Action>, s: State)
    requires Initial(s0) && Run(s0, actions) == Some(s) && s.pc.Popping?
    ensures |s.heap| > 1 && s.fired != []
    ensures s.heap[1] == s.fired[|s.fired| - 1] <==> !Overtaken(s0, actions, false)
    ensures Step(s, PopEvent).Some? && Step(s, PopEvent).value.popped == s.popped + [s.heap[1]]
  {
    ReachedAnswers(s0, actions, s);
    PoppingAnswers(s, Overtaken(s0, actions, false));
  }

  // ----- Over whole runs: exactly when every pop takes what has fired -----

  // No pop of the run finds that another event has taken the root.
  predicate NeverPopsOvertaken(s: State, actions: seq<Action>, so: bool)
    requires s.heap != []
    decreases |actions|
  {
    if actions == [] then true
    else
      StepKeepsArray(s, actions[0]);
      match Step(s, actions[0])
      case None => true
      case Some(s') =>
        && !(actions[0].PopEvent? && so)
        && NeverPopsOvertaken(s', actions[1..], !actions[0].Peek? && (so || TakesRoot(s, actions[0])))
  }

  // Before and after every step, the events popped are those fired.
  predicate AlwaysMatched(s: State, actions: seq<Action>)
    requires s.heap != []
    decreases |actions|
  {
    && FiredIsPopped(s)
    && (actions != [] && Step(s, actions[0]).Some? ==>
          (StepKeepsArray(s, actions[0]); AlwaysMatched(Step(s, actions[0]).value, actions[1..])))
  }

  lemma StepMatchesIff(s: State, a: Action, so: bool)
    requires Conserved(s) && RootAnswers(s, so) && FiredIsPopped(s) && Step(s, a).Some?
    ensures FiredIsPopped(Step(s, a).value) <==> !(a.PopEvent? && so)
  {
    if a.PopEvent? {
      PoppingAnswers(s, so);
      assert s.fired[|s.fired| - 1] == s.peeked.value;
      assert (s.popped + [s.heap[1]])[|s.popped|] == s.heap[1];
      assert (s.popped + [s.peeked.value])[|s.popped|] == s.peeked.value;
    }
  }

  lemma {:induction false} RunMatchesIff(s: State, actions: seq<Action>, so: bool)
    requires Conserved(s) && Distinguished(s) && RootAnswers(s, so) && FiredIsPopped(s)
    ensures AlwaysMatched(s, actions) <==> NeverPopsOvertaken(s, actions, so)
    decreases |actions|
  {
    if actions != [] && Step(s, actions[0]).Some? {
      var a := actions[0];
      StepKeepsArray(s, a);
      StepMatchesIff(s, a, so);
      if !(a.PopEvent? && so) {
        StepConserves(s, a);
        StepDistinguishes(s, a);
        StepAnswers(s, a, so);
        RunMatchesIff(Step(s, a).value, actions[1..], !a.Peek? && (so || TakesRoot(s, a)));
      }
    }
  }

  lemma {:induction false} MatchedAtTheEnd(s: State, actions: seq<Action>)
    requires s.heap != [] && AlwaysMatched(s, actions) && Run(s, actions).Some?
    ensures FiredIsPopped(Run(s, actions).value)
    decreases |actions|
  {
    if actions != [] {
      StepKeepsArray(s, actions[0]);
      MatchedAtTheEnd(Step(s, actions[0]).value, actions[1..]);
    }
  }

  lemma {:induction false} RunDistinguishes(s: State, actions: seq<Action>)
    requires s.heap != [] && Distinguished(s) && Run(s, actions).Some?
    ensures Distinguished(Run(s, actions).value)
    decreases |actions|
  {
    if actions != [] {
      StepKeepsArray(s, actions[0]);
      StepDistinguishes(s, actions[0]);
      RunDistinguishes(Step(s, actions[0]).value, actions[1..]);
    }
  }

  // Over every interleaving: the events popped are those fired, in the same
  // order and throughout, exactly when no pop finds another event at the root.
  // Then no event fires twice.
  lemma MatchedIff(s0: State, actions: seq<Action>)
    requires Initial(s0)
    ensures AlwaysMatched(s0, actions) <==> NeverPopsOvertaken(s0, actions, false)
  {
    InitiallyInvariant(s0);
    RunMatchesIff(s0, actions, false);
  }

  lemma FiresOnceUnlessOvertaken(s0: State, actions: seq<Action>, s: State)
    requires Initial(s0) && Run(s0, actions) == Some(s) && NeverPopsOvertaken(s0, actions, false)
    ensures forall e :: multiset(s.fired)[e] <= 1
    ensures s.heap != [] && (!s.pc.Popping? ==> multiset(s.scheduled) == multiset(s.fired) + Items(s.heap))
  {
    MatchedIff(s0, actions);
    MatchedAtTheEnd(s0, actions);
    RunDistinguishes(s0, actions);
    ReachedAnswers(s0, actions, s);
    forall e ensures multiset(s.fired)[e] <= 1 {
      FiredOnce(s, e);
    }
  }
}
