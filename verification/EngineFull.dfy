// The full event queue: a call is dropped exactly when fifty events are
// pending.
module EngineFull {
  import opened Common
  import opened Engine
  import opened EngineSafety
  import opened EngineOvertaking

  // The number of pending events.
  function Pending(s: State): int {
    |s.heap| - 1
  }

  lemma StepKeepsCapacity(s: State, a: Action)
    requires s.heap != [] && Pending(s) <= PRI_QUEUE_SIZE && Step(s, a).Some?
    ensures Pending(Step(s, a).value) <= PRI_QUEUE_SIZE
  {
  }

  lemma {:induction false} RunKeepsCapacity(s: State, actions: seq<Action>)
    requires s.heap != [] && Pending(s) <= PRI_QUEUE_SIZE && Run(s, actions).Some?
    ensures Pending(Run(s, actions).value) <= PRI_QUEUE_SIZE
    decreases |actions|
  {
    if actions != [] {
      StepKeepsArray(s, actions[0]);
      StepKeepsCapacity(s, actions[0]);
      RunKeepsCapacity(Step(s, actions[0]).value, actions[1..]);
    }
  }

  lemma StepDrops(s: State, a: Action)
    requires s.heap != [] && Step(s, a).Some?
    ensures Step(s, a).value.dropped ==
            if Offered(s, a).Some? && Pending(s) >= PRI_QUEUE_SIZE then s.dropped + [Offered(s, a).value] else s.dropped
  {
  }

  // In every reachable state: an event offered to the queue is lost exactly
  // when fifty are pending.
  lemma DroppedIffFull(s0: State, actions: seq<Action>, s: State, a: Action)
    requires Initial(s0) && Run(s0, actions) == Some(s) && s.heap != []
    requires Offered(s, a).Some? && Step(s, a).Some?
    ensures Step(s, a).value.dropped == s.dropped + [Offered(s, a).value] <==> Pending(s) == PRI_QUEUE_SIZE
    ensures Step(s, a).value.dropped == s.dropped <==> Pending(s) < PRI_QUEUE_SIZE
  {
    RunKeepsCapacity(s0, actions);
    StepDrops(s, a);
    assert |s.dropped + [Offered(s, a).value]| == |s.dropped| + 1;
  }

  function Calls(n: nat): seq<Action> {
    if n == 0 then [] else [Schedule(0, 0, false)] + Calls(n - 1)
  }

  lemma OneCall(s: State)
    requires s.heap != [] && s.calls == map[]
    ensures var s' := DoSchedule(s, 0, 0, false);
            && s'.calls == map[] && |s'.dropped| == |s.dropped| + (if Pending(s) < PRI_QUEUE_SIZE then 0 else 1)
            && Pending(s') == (if Pending(s) < PRI_QUEUE_SIZE then Pending(s) + 1 else Pending(s))
  {
  }

  // `n` calls with nothing fired in between lose what does not fit.
  lemma {:induction false} CallsFill(s: State, n: nat)
    requires s.heap != [] && s.calls == map[] && Pending(s) <= PRI_QUEUE_SIZE
    ensures Run(s, Calls(n)).Some?
    ensures var room := PRI_QUEUE_SIZE - Pending(s);
            |Run(s, Calls(n)).value.dropped| == |s.dropped| + (if n <= room then 0 else n - room)
    decreases n
  {
    if n > 0 {
      OneCall(s);
      StepKeepsArray(s, Schedule(0, 0, false));
      assert Calls(n)[1..] == Calls(n - 1);
      CallsFill(DoSchedule(s, 0, 0, false), n - 1);
    }
  }

  // The fifty-first call of a run that schedules and does nothing else is lost.
  lemma FiftyFirstIsDropped(s0: State)
    requires Initial(s0)
    ensures Run(s0, Calls(50)).Some? && Run(s0, Calls(50)).value.dropped == []
    ensures Run(s0, Calls(51)).Some? && |Run(s0, Calls(51)).value.dropped| == 1
  {
    CallsFill(s0, 50);
    CallsFill(s0, 51);
  }
}
