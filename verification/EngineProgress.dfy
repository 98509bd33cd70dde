// That the engine gets on: a pass serves a due event, or calls back whatever is
// readable, and the loop makes pass after pass.
module EngineProgress {
  import opened Common
  import opened HeapModel
  import opened HeapOrder
  import opened EngineTime
  import opened Engine
  import opened FdModel
  import opened EnginePass
  import opened EngineStop
  import opened EngineDemands

  // ----- One pass -----

  // The pipe and the readable descriptors when select returns.
  function PipeAt(s: State, turn: Turn): seq<Manage> {
    s.pipe + Messages(true, turn.during)
  }

  function ReadyAt(s: State, turn: Turn, manageFd: nat): set<nat> {
    (turn.readable - {manageFd}) + if PipeAt(s, turn) != [] then {manageFd} else {}
  }

  lemma {:induction false} SilentIsRefused(s: State, t: Table, ds: seq<Demand>)
    requires s.heap != [] && LockHeld(s) && Messages(true, ds) == []
    ensures Demands(s, t, ds) == (s, t)
  {
    if ds != [] {
      SilentIsRefused(s, t, ds[..|ds| - 1]);
    }
  }

  // Nothing but time can end the wait: no message, nothing readable, no signal.
  predicate Undisturbed(s: State, turn: Turn, manageFd: nat) {
    PipeAt(s, turn) == [] && turn.readable <= {manageFd} && !turn.interrupted
  }

  function WaitAt(s: State): int
    requires |s.heap| > 1
  {
    EngineTime.Total(WaitFor(ClockAt(s.clock), s.heap[1].time))
  }

  // The engine when the wait for the root is over.
  function FiringAt(s: State, turn: Turn): State
    requires |s.heap| > 1 && WaitAt(s) >= 0
  {
    DoPeek(s).(pc := Firing, clock := s.clock + WaitAt(s) + turn.elapsed)
  }

  lemma FiringAtFields(s: State, turn: Turn)
    requires |s.heap| > 1 && WaitAt(s) >= 0
    ensures var s2 := FiringAt(s, turn);
            && s2.pc.Firing? && s2.peeked == Some(s.heap[1]) && s2.clock == s.clock + WaitAt(s) + turn.elapsed
            && s2.heap == s.heap && s2.nextId == s.nextId && s2.fired == s.fired && s2.popped == s.popped
            && s2.scheduled == s.scheduled && s2.dropped == s.dropped && s2.pipe == s.pipe
            && s2.needContinue == s.needContinue
  {
  }

  lemma QuietSelects(s: State, turn: Turn, manageFd: nat)
    requires |s.heap| > 1 && s.pipe == [] && turn.readable <= {manageFd} && !turn.interrupted && WaitAt(s) >= 0
    ensures Selected(DoPeek(s), turn, manageFd) == (FiringAt(s, turn), TimedOut)
  {
    assert turn.readable - {manageFd} == {};
    assert TimeLeft(DoPeek(s)) == WaitAt(s);
  }

  // How the wait for the root ends when nothing else does.
  lemma QuietTimesOut(s: State, t: Table, turn: Turn, manageFd: nat)
    requires |s.heap| > 1 && Undisturbed(s, turn, manageFd) && WaitAt(s) >= 0
    ensures Passed(s, t, turn, manageFd) == FiredAndPopped(FiringAt(s, turn), t, turn.onTimeout)
  {
    SilentIsRefused(DoPeek(s), t, turn.during);
    QuietSelects(s, turn, manageFd);
  }

  // With an event pending and nothing but time to end the wait, the pass fires
  // the root after exactly the computed wait and pops once; what the callback
  // asks for is scheduled or dropped, announced and registered.
  lemma PassFires(s: State, t: Table, m: FdMap, turn: Turn, manageFd: nat, at: nat)
    requires 1 < |s.heap| <= PRI_QUEUE_SIZE + 1 && Undisturbed(s, turn, manageFd) && WaitAt(s) >= 0
    requires at == s.clock + WaitAt(s) + turn.elapsed && FdPoll.Registers(t, m)
    ensures Fires(s, Passed(s, t, turn, manageFd).0, s.heap[1], at, turn.onTimeout)
    ensures FdPoll.Registers(Passed(s, t, turn, manageFd).1, Registrations(m, turn.onTimeout))
  {
    QuietTimesOut(s, t, turn, manageFd);
    FiringAtFields(s, turn);
    FiresLikeAt(s, FiringAt(s, turn), t, m, s.heap[1], at, turn.onTimeout);
  }

  lemma FiresLikeAt(s: State, s2: State, t: Table, m: FdMap, e: Event, at: nat, reply: seq<Demand>)
    requires 1 < |s.heap| <= PRI_QUEUE_SIZE + 1 && s2.heap == s.heap && s2.nextId == s.nextId && s2.fired == s.fired
    requires s2.popped == s.popped && s2.scheduled == s.scheduled && s2.dropped == s.dropped
    requires s2.pipe == s.pipe && s2.needContinue == s.needContinue
    requires s2.pc.Firing? && s2.peeked == Some(e) && s2.clock == at && FdPoll.Registers(t, m)
    ensures Fires(s, FiredAndPopped(s2, t, reply).0, e, at, reply)
    ensures FdPoll.Registers(FiredAndPopped(s2, t, reply).1, Registrations(m, reply))
  {
    FiringServes(s2, t, m, reply);
    FiresFrom(s, s2, FiredAndPopped(s2, t, reply).0, e, at, reply);
  }

  lemma FiresFrom(s: State, s2: State, s': State, e: Event, at: nat, reply: seq<Demand>)
    requires 0 < |s.heap| <= PRI_QUEUE_SIZE + 1 && s2.heap == s.heap && s2.nextId == s.nextId && s2.fired == s.fired
    requires s2.popped == s.popped && s2.scheduled == s.scheduled && s2.dropped == s.dropped
    requires s2.pipe == s.pipe && s2.needContinue == s.needContinue && Fires(s2, s', e, at, reply)
    ensures Fires(s, s', e, at, reply)
  {
  }

  // In short: the root fires.
  lemma RootFires(s: State, t: Table, m: FdMap, turn: Turn, manageFd: nat)
    requires 1 < |s.heap| <= PRI_QUEUE_SIZE + 1 && Deadlines(s) && Undisturbed(s, turn, manageFd)
    requires FdPoll.Registers(t, m)
    ensures Passed(s, t, turn, manageFd).0.fired == s.fired + [s.heap[1]]
  {
    WaitIsNat(s);
    PassFires(s, t, m, turn, manageFd, s.clock + WaitAt(s) + turn.elapsed);
  }

  // The callbacks of a pass.
  function CallsAt(s: State, t: Table, turn: Turn, manageFd: nat): seq<EngineFd>
    requires s.heap != []
  {
    FdPoll.ReadableOf(HashModel.Flat(Demands(DoPeek(s), t, turn.during).1), ReadyAt(s, turn, manageFd))
  }

  // If something is readable, the pipe included, exactly the readable
  // registrations are called back, each once; the temporary ones among them are
  // gone, and no event fires.
  lemma PassCallsBack(s: State, t: Table, m: FdMap, turn: Turn, manageFd: nat)
    requires s.heap != [] && ReadyAt(s, turn, manageFd) != {} && FdPoll.Registers(t, m)
    ensures var calls, ready := CallsAt(s, t, turn, manageFd), FdOp.Readable(ReadyAt(s, turn, manageFd));
            && Distinct(calls)
            && (forall e :: e in calls <==>
                  e.fd in ReadyAt(s, turn, manageFd) && Registered(Registrations(m, turn.during), e))
            && FdPoll.Registers(Passed(s, t, turn, manageFd).1, FdStep(Registrations(m, turn.during), ready))
    ensures var s' := Passed(s, t, turn, manageFd).0;
            s'.pc.Top? && s'.fired == s.fired && s'.popped == s.popped
  {
    var t1 := Demands(DoPeek(s), t, turn.during).1;
    DispatchesReady(s, t, turn, manageFd);
    DemandsRegister(DoPeek(s), t, m, turn.during);
    FdPoll.PassRegisters(t1, Registrations(m, turn.during), ReadyAt(s, turn, manageFd));
    DemandsSameTurn(DoPeek(s), t, turn.during);
    var s2 := Returned(Demands(DoPeek(s), t, turn.during).0, turn.elapsed, Ready);
    CallsTakeTime(s2, CallsAt(s, t, turn, manageFd), turn.replies, manageFd);
  }

  lemma DispatchesReady(s: State, t: Table, turn: Turn, manageFd: nat)
    requires s.heap != [] && ReadyAt(s, turn, manageFd) != {}
    ensures Passed(s, t, turn, manageFd) ==
            Dispatched(Returned(Demands(DoPeek(s), t, turn.during).0, turn.elapsed, Ready),
                       Demands(DoPeek(s), t, turn.during).1, ReadyAt(s, turn, manageFd), turn.replies, manageFd)
  {
    DemandsTell(DoPeek(s), t, turn.during);
    ReadableIsSelected(s, Demands(DoPeek(s), t, turn.during).0, turn, manageFd);
  }

  // Other threads get what they ask for in `during`, and the callbacks what they
  // ask for from clock `c` on.
  ghost predicate Serves(s: State, s': State, first: seq<Event>, c: nat, asked: seq<Demand>)
    requires 0 < |s.heap| <= PRI_QUEUE_SIZE + 1
  {
    Queues(s, s', first + Made(c, s.nextId + |first|, asked)) && s'.clock == c + Delays(asked)
  }

  lemma PassServesCalls(s: State, t: Table, turn: Turn, manageFd: nat, first: seq<Event>, c: nat, asked: seq<Demand>)
    requires 0 < |s.heap| <= PRI_QUEUE_SIZE + 1 && ReadyAt(s, turn, manageFd) != {}
    requires first == Made(s.clock, s.nextId, turn.during) && c == s.clock + Delays(turn.during) + turn.elapsed
    requires asked == AsDemands(RepliesFrom(CallsAt(s, t, turn, manageFd), turn.replies, manageFd, 0))
    ensures Serves(s, Passed(s, t, turn, manageFd).0, first, c, asked)
  {
    var calls, s1 := CallsAt(s, t, turn, manageFd), Demands(DoPeek(s), t, turn.during).0;
    var s2 := Returned(s1, turn.elapsed, Ready);
    DispatchesReady(s, t, turn, manageFd);
    DemandsTell(DoPeek(s), t, turn.during);
    DemandsQueue(DoPeek(s), t, turn.during);
    CallsTakeTime(s2, calls, turn.replies, manageFd);
    CallsQueue(s2, calls, turn.replies, manageFd);
    PassQueues(s, s1, s2, Called(s2, calls, turn.replies, manageFd), first, c, asked);
  }

  lemma ReadableIsSelected(s: State, s1: State, turn: Turn, manageFd: nat)
    requires s1.pipe == PipeAt(s, turn) && ReadyAt(s, turn, manageFd) != {}
    ensures Selected(s1, turn, manageFd)
         == (Returned(s1, turn.elapsed, Ready), Outcome.Readable(ReadyAt(s, turn, manageFd)))
  {
    var others := turn.readable - {manageFd};
    assert others + {} == others;
  }

  lemma PassQueues(s: State, s1: State, s2: State, s3: State, first: seq<Event>, c: nat, asked: seq<Demand>)
    requires 0 < |s.heap| <= PRI_QUEUE_SIZE + 1 && Queues(DoPeek(s), s1, first)
    requires s2.nextId == s1.nextId && s2.heap == s1.heap && s2.scheduled == s1.scheduled && s2.dropped == s1.dropped
    requires Queues(s2, s3, Made(c, s2.nextId, asked)) && s3.clock == c + Delays(asked)
    ensures Serves(s, s3.(pc := Top), first, c, asked)
  {
    var second := Made(c, s2.nextId, asked);
    assert Queues(s, s2, first);
    assert Queues(s2, s3.(pc := Top), second);
    QueuesOn(s, s2, s3.(pc := Top), first, second);
    assert s2.nextId == s.nextId + |first|;
  }

  // An interrupted pass changes nothing but the time and what the engine peeked.
  lemma PassInterrupted(s: State, t: Table, turn: Turn, manageFd: nat)
    requires s.heap != [] && ReadyAt(s, turn, manageFd) == {} && turn.interrupted
    ensures Passed(s, t, turn, manageFd) == (DoPeek(s).(pc := Top, clock := s.clock + turn.elapsed), t)
  {
    PipeIsEmpty(s, turn, manageFd);
    SilentIsRefused(DoPeek(s), t, turn.during);
  }

  // Without events select blocks until something is readable or it is
  // interrupted.
  lemma PassBlocksIff(s: State, t: Table, turn: Turn, manageFd: nat)
    requires 0 < |s.heap| <= PRI_QUEUE_SIZE + 1
    ensures Passed(s, t, turn, manageFd).0.pc.Selecting? <==>
            ReadyAt(s, turn, manageFd) == {} && !turn.interrupted && |s.heap| == 1
  {
    var (s1, t1) := Demands(DoPeek(s), t, turn.during);
    DemandsTell(DoPeek(s), t, turn.during);
    DemandsSameTurn(DoPeek(s), t, turn.during);
    if ReadyAt(s, turn, manageFd) != {} {
      ReadableIsSelected(s, s1, turn, manageFd);
    } else {
      PipeIsEmpty(s, turn, manageFd);
      SilentIsRefused(DoPeek(s), t, turn.during);
    }
  }

  lemma PipeIsEmpty(s: State, turn: Turn, manageFd: nat)
    requires ReadyAt(s, turn, manageFd) == {}
    ensures PipeAt(s, turn) == [] && turn.readable - {manageFd} == {}
  {
    assert PipeAt(s, turn) != [] ==> manageFd in ReadyAt(s, turn, manageFd);
    assert turn.readable - {manageFd} <= ReadyAt(s, turn, manageFd);
  }

  // ----- The loop -----

  // The loop makes one pass, and then does with the remaining turns what it
  // would do if it began there.
  lemma PerformedOne(s: State, t: Table, turn: Turn, manageFd: nat)
    requires s.heap != [] && s.pc.Top? && s.needContinue
    ensures Performed(s, t, [turn], manageFd) == Passed(s, t, turn, manageFd)
  {
    assert [turn][1..] == [];
  }

  lemma {:induction false} PerformedOn(s: State, t: Table, first: seq<Turn>, rest: seq<Turn>, manageFd: nat)
    requires s.heap != []
    ensures var (s', t') := Performed(s, t, first, manageFd);
            Performed(s, t, first + rest, manageFd) == Performed(s', t', rest, manageFd)
    decreases |first|
  {
    if first == [] {
      assert first + rest == rest;
    } else if s.pc.Top? && s.needContinue {
      assert (first + rest)[1..] == first[1..] + rest;
      var (s', t') := Passed(s, t, first[0], manageFd);
      PerformedOn(s', t', first[1..], rest, manageFd);
    }
  }

  lemma PerformedNext(s: State, t: Table, turns: seq<Turn>, i: nat, manageFd: nat)
    requires s.heap != [] && s.pc.Top? && s.needContinue && i < |turns|
    ensures var (s', t') := Passed(s, t, turns[i], manageFd);
            Performed(s, t, turns[i..], manageFd) == Performed(s', t', turns[i + 1..], manageFd)
  {
    assert turns[i..][1..] == turns[i + 1..];
  }

  lemma PerformedStops(s: State, t: Table, turns: seq<Turn>, manageFd: nat)
    requires s.heap != [] && (turns == [] || !s.pc.Top? || !s.needContinue)
    ensures Performed(s, t, turns, manageFd) == (s, t)
  {
  }

  // A turn in which nobody asks for anything while the engine is in select,
  // nothing is readable, no signal arrives, and the callback leaves no message.
  predicate Calm(turn: Turn, manageFd: nat) {
    && Messages(true, turn.during) == [] && turn.readable <= {manageFd} && !turn.interrupted
    && Messages(false, turn.onTimeout) == []
  }

  ghost predicate AllCalm(turns: seq<Turn>, manageFd: nat) {
    forall i :: 0 <= i < |turns| ==> Calm(turns[i], manageFd)
  }

  // Every deadline is one that select_engine_schedule_add computes.
  ghost predicate Deadlines(s: State)
    requires s.heap != []
  {
    forall x :: x in Items(s.heap) ==> Deadline(x.time)
  }

  lemma WaitIsNat(s: State)
    requires |s.heap| > 1 && Deadlines(s)
    ensures WaitAt(s) >= 0
  {
    assert s.heap[1] == s.heap[1..][0];
    assert s.heap[1] in Items(s.heap);
    WaitIff(ClockAt(s.clock), s.heap[1].time);
  }

  lemma {:induction false} MadeDeadlines(c: nat, id: nat, ds: seq<Demand>)
    ensures forall x :: x in Made(c, id, ds) ==> Deadline(x.time)
  {
    if ds != [] {
      var front, d := ds[..|ds| - 1], ds[|ds| - 1];
      MadeDeadlines(c, id, front);
      MadeOneMore(c, id, ds, front, c + Delays(front), id + |Made(c, id, front)|);
      if IsCall(d) {
        ScheduledIsExact(ClockAt(c + Delays(front) + d.request.timer.delay), d.request.timer.timeous);
      }
    }
  }

  // A pop leaves what it does not take.
  lemma FiringKeepsDeadlines(s: State, t: Table, reply: seq<Demand>)
    requires 1 < |s.heap| <= PRI_QUEUE_SIZE + 1 && Deadlines(s) && s.peeked.Some?
    ensures Deadlines(FiredAndPopped(s, t, reply).0)
  {
    var s1 := Demands(DoFire(s), t, reply).0;
    DemandsQueue(DoFire(s), t, reply);
    var made := Made(s.clock, s.nextId, reply);
    MadeDeadlines(s.clock, s.nextId, reply);
    forall x | x in Items(s1.heap) ensures Deadline(x.time) {
      if x !in Items(s.heap) {
        assert x in made[..Fitting(s, |made|)];
      }
    }
    PrecedesIsTotalPreorder();
    RemovalTakesOneIff(Precedes, s1.heap, 1);
  }

  lemma CalmPass(s: State, t: Table, m: FdMap, turn: Turn, manageFd: nat)
    requires 1 < |s.heap| <= PRI_QUEUE_SIZE + 1 && Deadlines(s) && s.pipe == [] && Calm(turn, manageFd)
    requires FdPoll.Registers(t, m)
    ensures var (s', t') := Passed(s, t, turn, manageFd);
            && s'.pc.Top? && s'.needContinue == s.needContinue && s'.pipe == []
            && s'.fired == s.fired + [s.heap[1]] && |s'.popped| == |s.popped| + 1
            && |s.heap| - 1 <= |s'.heap| <= PRI_QUEUE_SIZE + 1 && Deadlines(s')
            && FdPoll.Registers(t', Registrations(m, turn.onTimeout))
  {
    WaitIsNat(s);
    PassFires(s, t, m, turn, manageFd, s.clock + WaitAt(s) + turn.elapsed);
    QuietTimesOut(s, t, turn, manageFd);
    var s2 := FiringAt(s, turn);
    FiringKeepsDeadlines(s2, t, turn.onTimeout);
  }

  // As long as events are pending, the loop fires one in every calm turn and
  // goes on.
  lemma {:induction false} LoopFires(s: State, t: Table, m: FdMap, turns: seq<Turn>, manageFd: nat)
    requires |turns| < |s.heap| <= PRI_QUEUE_SIZE + 1 && Deadlines(s) && s.pipe == [] && AllCalm(turns, manageFd)
    requires s.pc.Top? && s.needContinue && FdPoll.Registers(t, m)
    ensures var s' := Performed(s, t, turns, manageFd).0;
            && s'.pc.Top? && s'.needContinue && s'.pipe == []
            && |s'.fired| == |s.fired| + |turns| && s.fired <= s'.fired
            && |s'.popped| == |s.popped| + |turns|
    decreases |turns|
  {
    if turns != [] {
      CalmPass(s, t, m, turns[0], manageFd);
      var (s', t') := Passed(s, t, turns[0], manageFd);
      LoopFires(s', t', Registrations(m, turns[0].onTimeout), turns[1..], manageFd);
    }
  }

  // ----- Which events fire -----

  // The callbacks of events schedule nothing.
  ghost predicate NoCalls(turns: seq<Turn>) {
    forall i :: 0 <= i < |turns| ==> forall d :: d in turns[i].onTimeout ==> !IsCall(d)
  }

  lemma {:induction false} NoCallsKeepHeap(s: State, t: Table, ds: seq<Demand>)
    requires s.heap != [] && forall d :: d in ds ==> !IsCall(d)
    ensures Demands(s, t, ds).0.heap == s.heap
  {
    if ds != [] {
      assert ds[|ds| - 1] in ds;
      NoCallsKeepHeap(s, t, ds[..|ds| - 1]);
    }
  }

  lemma CalmPassPops(s: State, t: Table, turn: Turn, manageFd: nat)
    requires 1 < |s.heap| <= PRI_QUEUE_SIZE + 1 && Deadlines(s) && s.pipe == [] && Calm(turn, manageFd)
    requires forall d :: d in turn.onTimeout ==> !IsCall(d)
    ensures Passed(s, t, turn, manageFd).0.heap == Popped(Precedes, s.heap)
    ensures Passed(s, t, turn, manageFd).0.popped == s.popped + [s.heap[1]]
  {
    WaitIsNat(s);
    QuietTimesOut(s, t, turn, manageFd);
    var s2 := FiringAt(s, turn);
    NoCallsKeepHeap(DoFire(s2), t, turn.onTimeout);
    DemandsSameTurn(DoFire(s2), t, turn.onTimeout);
  }

  // The events that fired from `s` to `s'`.
  function NewlyFired(s: State, s': State): seq<Event> {
    if |s.fired| <= |s'.fired| then s'.fired[|s.fired|..] else []
  }

  // If the callbacks schedule nothing, the events that fire are the first of
  // those that draining the queue returns, and they are the ones popped.
  lemma {:induction false} LoopDrains(s: State, t: Table, m: FdMap, turns: seq<Turn>, manageFd: nat)
    requires |turns| < |s.heap| <= PRI_QUEUE_SIZE + 1 && Deadlines(s) && s.pipe == [] && AllCalm(turns, manageFd)
    requires s.pc.Top? && s.needContinue && FdPoll.Registers(t, m) && NoCalls(turns)
    ensures Drains(s, Performed(s, t, turns, manageFd).0, |turns|)
    decreases |turns|
  {
    if turns == [] {
      DrainsNothing(s);
    } else {
      CalmPass(s, t, m, turns[0], manageFd);
      CalmPassPops(s, t, turns[0], manageFd);
      var (s1, t1) := Passed(s, t, turns[0], manageFd);
      LoopDrains(s1, t1, Registrations(m, turns[0].onTimeout), turns[1..], manageFd);
      DrainsOneMore(s, s1, Performed(s1, t1, turns[1..], manageFd).0, |turns[1..]|);
    }
  }

  ghost predicate Drains(s: State, s': State, n: nat) {
    var first := NewlyFired(s, s');
    && s.heap != [] && s'.heap != [] && |first| == n
    && s'.fired == s.fired + first && s'.popped == s.popped + first
    && Drained(Precedes, s.heap) == first + Drained(Precedes, s'.heap)
  }

  lemma DrainsNothing(s: State)
    requires s.heap != []
    ensures Drains(s, s, 0)
  {
    assert NewlyFired(s, s) == [];
    assert [] + Drained(Precedes, s.heap) == Drained(Precedes, s.heap);
  }

  lemma DrainsOneMore(s: State, s1: State, s': State, n: nat)
    requires |s.heap| > 1 && s1.heap == Popped(Precedes, s.heap) && Drains(s1, s', n)
    requires s1.fired == s.fired + [s.heap[1]] && s1.popped == s.popped + [s.heap[1]]
    ensures Drains(s, s', n + 1)
  {
    var later := NewlyFired(s1, s');
    var first := [s.heap[1]] + later;
    assert s'.fired == s.fired + first && s'.popped == s.popped + first;
    assert NewlyFired(s, s') == first;
    Regroup([s.heap[1]], later, Drained(Precedes, s'.heap));
  }

  lemma FirstOfDrain(h: seq<Event>, first: seq<Event>, h': seq<Event>)
    requires h != [] && h' != [] && HeapOrdered(Precedes, h)
    requires Drained(Precedes, h) == first + Drained(Precedes, h')
    ensures InOrder(Precedes, first) && Items(h) == multiset(first) + Items(h')
    ensures forall x, y :: x in first && y in Items(h') ==> Precedes(x, y)
  {
    PrecedesIsTotalPreorder();
    DrainIsSorted(Precedes, h);
    DrainReturnsAll(Precedes, h');
    var all, rest := Drained(Precedes, h), Drained(Precedes, h');
    AppendedItems(first, rest);
    forall x, y | x in first && y in Items(h') ensures Precedes(x, y) {
      assert y in multiset(rest);
      var i :| 0 <= i < |first| && first[i] == x;
      var j :| 0 <= j < |rest| && rest[j] == y;
      assert all[i] == x && all[|first| + j] == y;
    }
    assert forall i :: 0 <= i < |first| ==> first[i] == all[i];
  }

  // From a heap these are the earliest by the comparator, in order: each
  // precedes those that fire later and all that stay pending.
  lemma EarliestFire(s: State, t: Table, m: FdMap, turns: seq<Turn>, manageFd: nat)
    requires |turns| < |s.heap| <= PRI_QUEUE_SIZE + 1 && Deadlines(s) && s.pipe == [] && AllCalm(turns, manageFd)
    requires s.pc.Top? && s.needContinue && FdPoll.Registers(t, m) && NoCalls(turns)
    requires HeapOrdered(Precedes, s.heap)
    ensures var s' := Performed(s, t, turns, manageFd).0;
            var first := NewlyFired(s, s');
            && |first| == |turns| && s'.fired == s.fired + first && InOrder(Precedes, first)
            && Items(s.heap) == multiset(first) + Items(s'.heap)
            && forall x, y :: x in first && y in Items(s'.heap) ==> Precedes(x, y)
  {
    LoopDrains(s, t, m, turns, manageFd);
    var s' := Performed(s, t, turns, manageFd).0;
    FirstOfDrain(s.heap, NewlyFired(s, s'), s'.heap);
  }
}
