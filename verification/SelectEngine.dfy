// select.c on its own fields: the code of select_engine_schedule_add and of
// select_engine_perform, every block of which is a step of the protocol. The
// class invariant is that the fields are in a state the protocol reaches when
// scheduling is one step.
module SelectEngine {
  import opened Common
  import opened HeapModel
  import opened PriQueue
  import opened EngineTime
  import opened Engine
  import opened EngineSafety
  import opened EngineAtomic
  import opened FdModel
  import opened EnginePass
  import opened EngineStop
  import opened EngineDemands
  import opened EngineProgress

  ghost predicate Reaches(start: State, trace: seq<Action>, s: State) {
    Initial(start) && Atomic(trace) && Run(start, trace) == Some(s)
  }

  lemma ReachesOneMore(start: State, trace: seq<Action>, s: State, a: Action)
    requires Reaches(start, trace, s) && s.heap != [] && AtomicAction(a) && Step(s, a).Some?
    ensures Reaches(start, trace + [a], Step(s, a).value)
  {
    StepKeepsArray(s, a);
    assert [a][1..] == [];
    assert Run(s, [a]) == Step(s, a);
    RunsOn(start, trace, s, [a]);
  }

  lemma ReachesTwoMore(start: State, trace: seq<Action>, s: State, a: Action, s1: State, b: Action, s2: State)
    requires Reaches(start, trace, s) && s.heap != [] && AtomicAction(a) && Step(s, a) == Some(s1)
    requires s1.heap != [] && AtomicAction(b) && Step(s1, b) == Some(s2)
    ensures Reaches(start, trace + [a, b], s2)
  {
    ReachesOneMore(start, trace, s, a);
    ReachesOneMore(start, trace + [a], s1, b);
    assert trace + [a] + [b] == trace + [a, b];
  }

  lemma ScheduleMoves(start: State, trace: seq<Action>, s: State, r: Timer)
    requires Reaches(start, trace, s) && s.heap != [] && r.timeous >= 0
    ensures Reaches(start, trace + [Tick(r.delay), Schedule(0, r.timeous, r.contended)], Answered(s, r))
  {
    Reached(start, trace, s);
    var call := Schedule(0, r.timeous, r.contended);
    ReachesTwoMore(start, trace, s, Tick(r.delay), Later(s, r.delay), call, Answered(s, r));
  }

  // What one call changes, field by field; `e` is its event.
  predicate CallOn(s: State, s': State, r: Timer, e: Event)
    requires s.heap != []
  {
    && s'.heap == HeapWith(s.heap, e)
    && s'.clock == s.clock + r.delay && s'.nextId == s.nextId + 1 && s'.pc == s.pc
    && s'.pipe == (if LockHeld(s) || r.contended then s.pipe + [Restart] else s.pipe)
    && s'.needContinue == s.needContinue
  }

  predicate IsEventOf(s: State, r: Timer, e: Event) {
    r.timeous >= 0 && e == Event(s.nextId, Scheduled(ClockAt(s.clock + r.delay), r.timeous))
  }

  function HeapWith(heap: seq<Event>, e: Event): seq<Event>
    requires heap != []
  {
    if |heap| - 1 < PRI_QUEUE_SIZE then Pushed(Precedes, heap, e) else heap
  }

  lemma AnsweredIsCallOn(s: State, r: Timer, e: Event)
    requires s.heap != [] && IsEventOf(s, r, e)
    ensures CallOn(s, Answered(s, r), r, e)
  {
    AnsweredFields(s, r, e);
    AnsweredSameTurn(s, r);
  }

  // select returns `delay` after it was last seen, for the reason `a`.
  lemma SelectMoves(start: State, trace: seq<Action>, s: State, delay: nat, a: Action)
    requires Reaches(start, trace, s) && s.pc.Selecting? && s.heap != []
    requires a.Ready? || a.Interrupt? || (a.TimeOut? && MayTimeOut(Later(s, delay)))
    ensures Reaches(start, trace + [Tick(delay), a], Returned(s, delay, a))
  {
    ReachesTwoMore(start, trace, s, Tick(delay), Later(s, delay), a, Returned(s, delay, a));
  }

  // Once the wait is over, nothing but a timeout is left.
  lemma WaitEnds(s: State, more: nat)
    requires s.pc.Selecting? && s.peeked.Some? && s.pipe == []
    ensures MayTimeOut(Later(s, TimeLeft(s) + more))
  {
  }

  lemma FireMoves(start: State, trace: seq<Action>, s: State)
    requires Reaches(start, trace, s) && s.pc.Firing? && s.heap != []
    ensures s.peeked.Some? && Reaches(start, trace + [Fire], DoFire(s))
  {
    AtomicReachable(start, trace, s);
    ReachesOneMore(start, trace, s, Fire);
  }

  lemma PopMoves(start: State, trace: seq<Action>, s: State)
    requires Reaches(start, trace, s) && s.pc.Popping?
    ensures |s.heap| > 1 && s.fired == s.popped + [s.heap[1]]
    ensures Reaches(start, trace + [PopEvent], DoPop(s))
  {
    PoppedIsFired(start, trace, s);
    ReachesOneMore(start, trace, s, PopEvent);
  }

  lemma ReloadMoves(start: State, trace: seq<Action>, s: State, a: Action)
    requires Reaches(start, trace, s) && s.heap != [] && (a.Reload? || a.RequestStop?)
    ensures Reaches(start, trace + [a], if a.Reload? then DoReload(s, a.contended) else s.(pipe := s.pipe + [Stop]))
  {
    ReachesOneMore(start, trace, s, a);
  }

  lemma DispatchMoves(start: State, trace: seq<Action>, s: State)
    requires Reaches(start, trace, s) && s.pc.Dispatching? && s.heap != []
    ensures Reaches(start, trace + [Action.Dispatch], DoDispatch(s))
  {
    ReachesOneMore(start, trace, s, Action.Dispatch);
  }

  lemma StopMoves(start: State, trace: seq<Action>, s: State)
    requires Reaches(start, trace, s) && s.pc.Top? && !s.needContinue && s.heap != []
    ensures Reaches(start, trace + [Lock], s.(pc := Stopped, needContinue := true))
  {
    ReachesOneMore(start, trace, s, Lock);
  }

  lemma FiredArePopped(start: State, trace: seq<Action>, s: State)
    requires Reaches(start, trace, s) && !s.pc.Popping?
    ensures s.heap != [] && s.fired == s.popped && multiset(s.scheduled) == multiset(s.fired) + Items(s.heap)
  {
    AtomicReachable(start, trace, s);
  }

  lemma BeginMoves(start: State, trace: seq<Action>, s: State)
    requires Reaches(start, trace, s) && s.pc.Top? && s.needContinue && s.heap != []
    ensures Reaches(start, trace + [Lock, Peek], DoPeek(s))
  {
    ReachesTwoMore(start, trace, s, Lock, s.(pc := Locked), Peek, DoPeek(s));
  }

  lemma Reached(start: State, trace: seq<Action>, s: State)
    requires Reaches(start, trace, s)
    ensures s.heap != [] && s.calls == map[]
    ensures s.pc.Selecting? && s.peeked.Some? ==> s.peekedAt <= s.clock && Deadline(s.peeked.value.time)
  {
    AtomicReachable(start, trace, s);
  }

  function StartState(heap: seq<Event>): State {
    State(heap, 0, Top, None, 0, [], true, map[], 0, [], [], [], [], [])
  }

  lemma ReachedDeadlines(start: State, trace: seq<Action>, s: State)
    requires Reaches(start, trace, s)
    ensures s.heap != [] && Deadlines(s)
  {
    AtomicReachable(start, trace, s);
    forall x | x in Items(s.heap) ensures Deadline(x.time) {
      assert x in multiset(s.scheduled);
    }
  }

  lemma PeekedIsPending(start: State, trace: seq<Action>, s: State)
    requires Reaches(start, trace, s) && s.pc.Firing?
    ensures |s.heap| > 1 && s.peeked.Some?
  {
    AtomicReachable(start, trace, s);
  }

  lemma NowhereYet(s: State)
    requires Initial(s)
    ensures Reaches(s, [], s)
  {
  }

  // The descriptor table with the manage descriptor in it.
  method NewPoll(manageFd: nat) returns (table: FdPoll.FdTable)
    requires manageFd < 0x8000_0000
    ensures table.Valid() && Registered(table.m, Manager(manageFd)) && fresh(table.repr)
  {
    table := new FdPoll.FdTable();
    table.FdAdd(Manager(manageFd));
  }

  class SelectEngine {
    const eventQueue: PriQueue<Event>
    const fdPoll: FdPoll.FdTable
    const manageFd: nat
    var clock: nat           // what gettimeofday returns
    var issued: nat          // events allocated so far
    var runningFlag: bool    // held by the engine
    var pipe: seq<Manage>
    var needContinue: bool
    ghost const start: State
    ghost var trace: seq<Action>
    ghost var s: State

    ghost predicate Agrees()
      reads this, eventQueue, eventQueue.heapMem
    {
      && eventQueue.Valid() && eventQueue.le == Precedes && eventQueue.maxSize == PRI_QUEUE_SIZE
      && eventQueue.Heap() == s.heap
      && clock == s.clock && issued == s.nextId && runningFlag == LockHeld(s)
      && pipe == s.pipe && needContinue == s.needContinue
    }

    function Manager(): EngineFd {
      EngineStop.Manager(manageFd)
    }

    // The descriptor table is apart from the queue and from the engine.
    ghost predicate Polling()
      reads eventQueue`heapMem, fdPoll, fdPoll.repr
    {
      && this !in fdPoll.repr && eventQueue !in fdPoll.repr && eventQueue.heapMem !in fdPoll.repr
      && fdPoll.Valid()
    }

    // The read end of the pipe stays registered for good.
    ghost predicate Watching()
      reads eventQueue`heapMem, fdPoll, fdPoll.repr
    {
      Polling() && Registered(fdPoll.m, Manager())
    }

    // The engine's own code leaves the descriptor table alone.
    twostate predicate TableKept()
      reads eventQueue`heapMem, fdPoll, fdPoll.repr, fdPoll.table
    {
      && Polling() == old(Polling()) && fdPoll.m == old(fdPoll.m) && fdPoll.repr == old(fdPoll.repr)
      && fdPoll.table.cells == old(fdPoll.table.cells)
    }

    // Work on the descriptor table leaves the engine alone.
    twostate predicate EngineKept()
      reads this, eventQueue, eventQueue.heapMem
    {
      && Valid() == old(Valid()) && s == old(s) && pipe == old(pipe) && needContinue == old(needContinue)
      && clock == old(clock) && eventQueue.heapMem == old(eventQueue.heapMem)
    }

    ghost predicate Valid()
      reads this, eventQueue, eventQueue.heapMem
    {
      Agrees() && Reaches(start, trace, s)
    }

    constructor (manageFd: nat, eventQueue: PriQueue<Event>, fdPoll: FdPoll.FdTable)
      requires eventQueue.Valid() && eventQueue.le == Precedes && eventQueue.maxSize == PRI_QUEUE_SIZE
      requires |eventQueue.Heap()| == 1
      ensures Valid() && Initial(s)
      ensures this.manageFd == manageFd && this.eventQueue == eventQueue && this.fdPoll == fdPoll
    {
      ghost var s0 := StartState(eventQueue.Heap());
      NowhereYet(s0);
      this.manageFd, this.eventQueue, this.fdPoll := manageFd, eventQueue, fdPoll;
      clock, issued, runningFlag, pipe, needContinue := 0, 0, false, [], true;
      start, trace, s := s0, [], s0;
    }

    // __engine_reload
    method EngineReload(contended: bool)
      modifies this`pipe
      ensures pipe == if old(runningFlag) || contended then old(pipe) + [Restart] else old(pipe)
    {
      if runningFlag || contended {
        pipe := pipe + [Restart];
      }
    }

    // select_engine_schedule_add
    method ScheduleAdd(r: Timer) returns (err: Errno)
      requires Valid()
      modifies this, eventQueue`curSize, eventQueue.heapMem
      ensures Valid()
      ensures err == if r.timeous < 0 then ErrInvalid else Ok
      ensures s == Answered(old(s), r)
    {
      if r.timeous < 0 {
        return ErrInvalid;
      }
      ghost var e := Event(s.nextId, Scheduled(ClockAt(s.clock + r.delay), r.timeous));
      AnsweredIsCallOn(s, r, e);
      ScheduleMoves(start, trace, s, r);
      AddEvent(r, Answered(s, r), e);
      trace := trace + [Tick(r.delay), Schedule(0, r.timeous, r.contended)];
      return Ok;
    }

    // Lines 178 to 197.
    method AddEvent(r: Timer, ghost next: State, ghost e: Event)
      requires Agrees() && IsEventOf(s, r, e) && CallOn(s, next, r, e)
      modifies this`clock, this`issued, this`pipe, this`s, eventQueue`curSize, eventQueue.heapMem
      ensures Agrees() && s == next
    {
      var event := NewEvent(r);
      assert event == e;
      QueueEvent(event);
      EngineReload(r.contended);
      s := next;
    }

    method NewEvent(r: Timer) returns (event: Event)
      requires r.timeous >= 0
      modifies this`clock, this`issued
      ensures event == Event(old(issued), Scheduled(ClockAt(clock), r.timeous))
      ensures clock == old(clock) + r.delay && issued == old(issued) + 1
    {
      clock := clock + r.delay;
      event := Event(issued, Scheduled(ClockAt(clock), r.timeous));
      issued := issued + 1;
    }

    // pri_queue_push, the result of which is ignored.
    method QueueEvent(event: Event)
      requires eventQueue.Valid() && eventQueue.le == Precedes && eventQueue.maxSize == PRI_QUEUE_SIZE
      modifies eventQueue`curSize, eventQueue.heapMem
      ensures eventQueue.Valid() && eventQueue.Heap() == HeapWith(old(eventQueue.Heap()), event)
    {
      var _ := eventQueue.Push(event);
    }

    // select_engine_fd_add_forever and select_engine_fd_add_once
    method FdAdd(fd: int32, cb: nat, context: nat, temporary: bool, contended: bool) returns (err: Errno)
      requires Valid() && Polling()
      modifies this`pipe, this`s, this`trace
      modifies fdPoll, fdPoll.repr
      ensures Valid() && Polling() == old(Polling()) && err == if fd < 0 then ErrInvalid else Ok
      ensures (s, fdPoll.table.cells)
           == Demanded(old(s), old(fdPoll.table.cells), AddFd(fd, cb, context, temporary, contended))
      ensures fdPoll.m == if fd < 0 then old(fdPoll.m)
                          else FdStep(old(fdPoll.m), FdOp.Add(EngineFd(fd, cb, context, temporary)))
      ensures fresh(fdPoll.repr - old(fdPoll.repr))
      ensures fd >= 0 ==> s.pipe == old(s).pipe + if LockHeld(old(s)) || contended then [Restart] else []
    {
      if fd < 0 {
        return ErrInvalid;
      }
      PutFd(EngineFd(fd, cb, context, temporary), contended);
      return Ok;
    }

    method PutFd(e: EngineFd, contended: bool)
      requires Valid() && Polling() && e.fd < 0x8000_0000
      modifies this`pipe, this`s, this`trace
      modifies fdPoll, fdPoll.repr
      ensures Valid() && Polling() == old(Polling()) && s == DoReload(old(s), contended)
      ensures fdPoll.m == FdStep(old(fdPoll.m), FdOp.Add(e)) && fresh(fdPoll.repr - old(fdPoll.repr))
      ensures fdPoll.table.cells == HashModel.Pushed(old(fdPoll.table.cells), FdHash, Decimal(e.fd), e)
    {
      Register(e);
      Reload(contended);
    }

    method Register(e: EngineFd)
      requires Polling() && e.fd < 0x8000_0000
      modifies fdPoll, fdPoll.repr
      ensures Polling() == old(Polling()) && fresh(fdPoll.repr - old(fdPoll.repr))
      ensures fdPoll.m == FdStep(old(fdPoll.m), FdOp.Add(e))
      ensures fdPoll.table.cells == HashModel.Pushed(old(fdPoll.table.cells), FdHash, Decimal(e.fd), e)
      ensures EngineKept()
    {
      fdPoll.FdAdd(e);
    }

    // select_engine_fd_del: a descriptor that is not registered is no error.
    method FdDel(fd: int32, contended: bool) returns (err: Errno)
      requires Valid() && Polling()
      modifies this`pipe, this`s, this`trace
      modifies fdPoll, fdPoll.repr
      ensures Valid() && Polling() == old(Polling()) && err == if fd < 0 then ErrInvalid else Ok
      ensures (s, fdPoll.table.cells) == Demanded(old(s), old(fdPoll.table.cells), DelFd(fd, contended))
      ensures fdPoll.m == if fd < 0 then old(fdPoll.m) else FdStep(old(fdPoll.m), FdOp.Del(fd))
      ensures fdPoll.repr == old(fdPoll.repr)
      ensures fd >= 0 ==> s.pipe == old(s).pipe + if LockHeld(old(s)) || contended then [Restart] else []
    {
      if fd < 0 {
        return ErrInvalid;
      }
      DropFd(fd, contended);
      return Ok;
    }

    method DropFd(fd: nat, contended: bool)
      requires Valid() && Polling()
      modifies this`pipe, this`s, this`trace
      modifies fdPoll, fdPoll.repr
      ensures Valid() && Polling() == old(Polling()) && s == DoReload(old(s), contended)
      ensures fdPoll.m == FdStep(old(fdPoll.m), FdOp.Del(fd)) && fdPoll.repr == old(fdPoll.repr)
      ensures fdPoll.table.cells == HashModel.Popped(old(fdPoll.table.cells), FdHash, Decimal(fd))
    {
      Unregister(fd);
      Reload(contended);
    }

    method Unregister(fd: nat)
      requires Polling()
      modifies fdPoll, fdPoll.repr
      ensures Polling() == old(Polling()) && fdPoll.repr == old(fdPoll.repr)
      ensures fdPoll.m == FdStep(old(fdPoll.m), FdOp.Del(fd))
      ensures fdPoll.table.cells == HashModel.Popped(old(fdPoll.table.cells), FdHash, Decimal(fd))
      ensures EngineKept()
    {
      var _ := fdPoll.FdDel(fd);
    }

    method Reload(contended: bool)
      requires Valid()
      modifies this`pipe, this`s, this`trace
      ensures Valid() && s == DoReload(old(s), contended)
      ensures old(Polling()) ==> TableKept()
    {
      ReloadMoves(start, trace, s, Action.Reload(contended));
      EngineReload(contended);
      trace, s := trace + [Action.Reload(contended)], DoReload(s, contended);
    }

    // select_engine_stop
    method RequestStop()
      requires Valid()
      modifies this`pipe, this`s, this`trace
      ensures Valid() && s == old(s).(pipe := old(pipe) + [Stop])
    {
      ReloadMoves(start, trace, s, Action.RequestStop);
      pipe := pipe + [Stop];
      trace, s := trace + [Action.RequestStop], s.(pipe := s.pipe + [Stop]);
    }

    // Several requests in a row.
    method Answer(requests: seq<Request>)
      requires Valid()
      modifies this, eventQueue`curSize, eventQueue.heapMem
      ensures Valid() && s == Answers(old(s), requests) && SameTurn(old(s), s)
      ensures AskStop !in requests && Stop in pipe ==> Stop in old(pipe)
    {
      for i := 0 to |requests|
        invariant Valid() && s == Answers(old(s), requests[..i])
      {
        assert requests[..i + 1][..i] == requests[..i];
        GrantRequest(requests[i]);
      }
      assert requests[..|requests|] == requests;
      AnswersSameTurn(old(s), requests);
    }

    method GrantRequest(r: Request)
      requires Valid()
      modifies this, eventQueue`curSize, eventQueue.heapMem
      ensures Valid() && s == Asked(old(s), r)
      ensures old(Polling()) ==> TableKept()
    {
      match r
      case SetTimer(t) => var _ := ScheduleAdd(t);
      case AskStop => RequestStop();
    }

    method Grant(d: Demand)
      requires Valid() && Polling()
      modifies this, eventQueue`curSize, eventQueue.heapMem
      modifies fdPoll, fdPoll.repr
      ensures Valid() && Polling() == old(Polling())
      ensures (d.Ask? || d.fd != manageFd) && old(Watching()) ==> Watching()
      ensures (s, fdPoll.table.cells) == Demanded(old(s), old(fdPoll.table.cells), d)
      ensures fresh(fdPoll.repr - old(fdPoll.repr))
      ensures fdPoll.m == Registrations(old(fdPoll.m), [d])
    {
      OneRegistration(fdPoll.m, d);
      match d
      case Ask(request) => GrantRequest(request);
      case AddFd(fd, cb, context, temporary, contended) =>
        ghost var m := fdPoll.m;
        var _ := FdAdd(fd, cb, context, temporary, contended);
        if fd >= 0 && fd != manageFd && Registered(m, Manager()) {
          OthersStay(m, Manager(), EngineFd(fd, cb, context, temporary));
        }
      case DelFd(fd, contended) =>
        ghost var m := fdPoll.m;
        var _ := FdDel(fd, contended);
        if fd >= 0 && fd != manageFd && Registered(m, Manager()) {
          OthersStay(m, Manager(), EngineFd(fd, 0, 0, false));
        }
    }

    // Several demands in a row.
    method GrantAll(ds: seq<Demand>)
      requires Valid() && Polling()
      modifies this, eventQueue`curSize, eventQueue.heapMem
      modifies fdPoll, fdPoll.repr
      ensures Valid() && Polling() == old(Polling())
      ensures SparesPipe(ds, manageFd) && old(Watching()) ==> Watching()
      ensures (s, fdPoll.table.cells) == Demands(old(s), old(fdPoll.table.cells), ds) && SameTurn(old(s), s)
      ensures fresh(fdPoll.repr - old(fdPoll.repr))
      ensures fdPoll.m == Registrations(old(fdPoll.m), ds)
    {
      for i := 0 to |ds|
        invariant Valid() && Polling() == old(Polling())
        invariant SparesPipe(ds, manageFd) && old(Watching()) ==> Watching()
        invariant fdPoll.m == Registrations(old(fdPoll.m), ds[..i])
        invariant (s, fdPoll.table.cells) == Demands(old(s), old(fdPoll.table.cells), ds[..i])
        invariant fresh(fdPoll.repr - old(fdPoll.repr))
      {
        assert ds[..i + 1][..i] == ds[..i];
        OneRegistration(fdPoll.m, ds[i]);
        Grant(ds[i]);
      }
      assert ds[..|ds|] == ds;
      DemandsSameTurn(old(s), old(fdPoll.table.cells), ds);
    }

    // Lines 221 to 252.
    method BeginPass() returns (event: Option<Event>, selectTm: Option<Time>)
      requires Valid() && s.pc.Top? && needContinue
      modifies this
      ensures Valid() && s == DoPeek(old(s)) && clock == old(clock)
      ensures event == s.peeked && (selectTm.None? <==> event.None?)
      ensures event.Some? ==> selectTm == Some(WaitFor(ClockAt(clock), event.value.time))
      ensures old(Polling()) ==> TableKept()
    {
      BeginMoves(start, trace, s);
      trace, s := trace + [Lock, Peek], DoPeek(s);
      runningFlag := true;
      var err;
      err, event := eventQueue.Peek();
      selectTm := if event.None? then None else Some(WaitFor(ClockAt(clock), event.value.time));
    }

    // Where the engine is after select, by outcome.
    ghost predicate OutcomeFits(outcome: Outcome)
      reads this`s, this`pipe
    {
      match outcome
      case TimedOut => s.pc.Firing? && s.peeked.Some? && pipe == []
      case Readable(ready) => s.pc == Dispatching(pipe != []) && (manageFd in ready <==> pipe != [])
      case Interrupted => s.pc.Top?
      case Blocked => s.pc.Selecting? && s.peeked.None? && pipe == []
    }

    // select itself, from the clock reading `began`, and the unlock after it.
    method Select(turn: Turn, began: nat, selectTm: Option<Time>) returns (outcome: Outcome)
      requires Valid() && s.pc.Selecting? && began == s.peekedAt <= clock
      requires selectTm.None? <==> s.peeked.None?
      requires selectTm.Some? ==> selectTm == Some(WaitFor(ClockAt(began), s.peeked.value.time))
      modifies this
      ensures Valid() && (s, outcome) == Selected(old(s), turn, manageFd)
      ensures OutcomeFits(outcome) && s.peeked == old(s).peeked
      ensures old(Polling()) ==> TableKept()
    {
      var others := turn.readable - {manageFd};
      if pipe != [] || others != {} {
        outcome := Outcome.Readable(if pipe != [] then others + {manageFd} else others);
        Return(turn.elapsed, Ready);
        return;
      } else if turn.interrupted {
        Return(turn.elapsed, Interrupt);
        return Interrupted;
      } else if selectTm.None? {
        return Blocked;
      }
      var end := began + Total(selectTm.value);
      WaitEnds(s, turn.elapsed);
      Return((if clock < end then end - clock else 0) + turn.elapsed, TimeOut);
      return TimedOut;
    }

    // The engine wakes up and unlocks.
    method Return(delay: nat, ghost a: Action)
      requires Valid() && s.pc.Selecting?
      requires a.Ready? || a.Interrupt? || (a.TimeOut? && MayTimeOut(Later(s, delay)))
      modifies this`clock, this`runningFlag, this`s, this`trace
      ensures Valid() && s == Returned(old(s), delay, a)
      ensures old(Polling()) ==> TableKept()
    {
      SelectMoves(start, trace, s, delay, a);
      clock := clock + delay;
      runningFlag := false;
      trace, s := trace + [Tick(delay), a], Returned(s, delay, a);
    }

    // Lines 262 and 263: the callback, with what it asks for, and the pop. What
    // is popped is what ran.
    method FireAndPop(event: Event, reply: seq<Demand>) returns (err: Errno)
      requires Valid() && Polling() && s.pc.Firing? && s.peeked == Some(event)
      modifies this, eventQueue`curSize, eventQueue.heapMem
      modifies fdPoll, fdPoll.repr
      ensures Valid() && Polling() == old(Polling()) && s.pc.Top? && err == Ok
      ensures SparesPipe(reply, manageFd) && old(Watching()) ==> Watching()
      ensures (s, fdPoll.table.cells) == FiredAndPopped(old(s), old(fdPoll.table.cells), reply)
      ensures s.fired == old(s).fired + [event] && s.popped == old(s).popped + [event]
      ensures fresh(fdPoll.repr - old(fdPoll.repr))
      ensures Fires(old(s), s, event, old(s).clock, reply) && fdPoll.m == Registrations(old(fdPoll.m), reply)
    {
      PeekedIsPending(start, trace, s);
      FiringServes(s, fdPoll.table.cells, fdPoll.m, reply);
      RunTimer(reply);
      err := PopFired(event);
    }

    // The callback of an event, and what it asks for.
    method RunTimer(reply: seq<Demand>)
      requires Valid() && Polling() && s.pc.Firing? && s.peeked.Some?
      modifies this, eventQueue`curSize, eventQueue.heapMem
      modifies fdPoll, fdPoll.repr
      ensures Valid() && Polling() == old(Polling())
      ensures SparesPipe(reply, manageFd) && old(Watching()) ==> Watching()
      ensures (s, fdPoll.table.cells) == Demands(DoFire(old(s)), old(fdPoll.table.cells), reply)
      ensures SameTurn(DoFire(old(s)), s) && fresh(fdPoll.repr - old(fdPoll.repr))
      ensures fdPoll.m == Registrations(old(fdPoll.m), reply)
    {
      FireEvent();
      GrantAll(reply);
    }

    // The callback starts.
    ghost method FireEvent()
      requires Valid() && s.pc.Firing?
      modifies this`s, this`trace
      ensures old(s).peeked.Some? && Valid() && s == DoFire(old(s))
      ensures old(Polling()) ==> TableKept()
    {
      FireMoves(start, trace, s);
      trace, s := trace + [Fire], DoFire(s);
    }

    method PopFired(event: Event) returns (err: Errno)
      requires Valid() && s.pc.Popping? && s.fired != [] && s.fired[|s.fired| - 1] == event
      modifies this`s, this`trace, eventQueue`curSize, eventQueue.heapMem
      ensures Valid() && s == DoPop(old(s)) && s.pc.Top? && err == Ok && s.popped == old(s).popped + [event]
      ensures old(Polling()) ==> TableKept()
    {
      PopMoves(start, trace, s);
      assert s.heap[1] == s.fired[|s.fired| - 1] == event;
      var popped;
      err, popped := PopRoot(trace + [PopEvent]);
      assert popped == Some(event);
    }

    // pri_queue_pop_trywait
    method PopRoot(ghost trace': seq<Action>) returns (err: Errno, popped: Option<Event>)
      requires Agrees() && s.pc.Popping? && |s.heap| > 1 && Reaches(start, trace', DoPop(s))
      modifies this`s, this`trace, eventQueue`curSize, eventQueue.heapMem
      ensures Valid() && s == DoPop(old(s)) && err == Ok && popped == Some(old(s).heap[1])
    {
      err, popped := eventQueue.PopTryWait();
      trace, s := trace', DoPop(s);
    }

    // __manage_fd_callback
    method ManageFdCallback()
      modifies this`pipe, this`needContinue
      ensures pipe == [] && needContinue == (old(needContinue) && Stop !in old(pipe))
    {
      while pipe != []
        invariant (needContinue && Stop !in pipe) == (old(needContinue) && Stop !in old(pipe))
        decreases |pipe|
      {
        var event := pipe[0];
        pipe := pipe[1..];
        if event == Stop {
          needContinue := false;
        }
      }
    }

    // The callbacks that are due. Descriptors added once are gone from here on.
    method TakeReadable(ready: set<nat>) returns (calls: seq<EngineFd>)
      requires Watching()
      modifies fdPoll, fdPoll.repr
      ensures Watching() == old(Watching()) && fdPoll.m == FdStep(old(fdPoll.m), FdOp.Readable(ready))
      ensures calls == FdPoll.ReadableOf(HashModel.Flat(old(fdPoll.table.cells)), ready)
      ensures fdPoll.table.cells ==
              HashModel.Swept(old(fdPoll.table.cells), |old(fdPoll.table.cells)|, 0, FdPoll.Expires(ready))
      ensures fdPoll.repr == old(fdPoll.repr)
      ensures Distinct(calls) && (Manager() in calls <==> manageFd in ready)
      ensures forall e :: e in calls && e.fd == manageFd ==> e == Manager()
      ensures EngineKept()
    {
      ManagerStays(fdPoll.m, ready, Manager());
      calls := fdPoll.FireReadable(ready);
    }

    method RunCallback(call: EngineFd, reply: seq<Request>)
      requires Valid() && (call.fd == manageFd ==> s.pc == Dispatching(true))
      modifies this, eventQueue`curSize, eventQueue.heapMem
      ensures Valid() && s == CalledOne(old(s), call, reply, manageFd)
      ensures s.pc == if call.fd == manageFd then Top else old(s).pc
    {
      if call.fd == manageFd {
        DispatchMoves(start, trace, s);
        ManageFdCallback();
        trace, s := trace + [Action.Dispatch], DoDispatch(s);
      } else {
        Answer(reply);
      }
    }

    // One callback after the other.
    method CallAll(calls: seq<EngineFd>, replies: seq<seq<Request>>)
      requires Valid() && Distinct(calls)
      requires forall e :: e in calls && e.fd == manageFd ==> e == Manager()
      requires s.pc == Dispatching(Manager() in calls)
      modifies this, eventQueue`curSize, eventQueue.heapMem
      ensures Valid() && s == Called(old(s), calls, replies, manageFd)
      ensures s.pc == if Manager() in calls then Top else Dispatching(false)
    {
      for i := 0 to |calls|
        invariant Valid() && s == Called(old(s), calls[..i], replies, manageFd)
        invariant s.pc == if Manager() in calls[..i] then Top else old(s).pc
      {
        assert calls[..i + 1][..i] == calls[..i];
        RunCallback(calls[i], ReplyAt(replies, i));
      }
      assert calls[..|calls|] == calls;
    }

    method RunCallbacks(calls: seq<EngineFd>, replies: seq<seq<Request>>)
      requires Valid() && Distinct(calls)
      requires forall e :: e in calls && e.fd == manageFd ==> e == Manager()
      requires s.pc == Dispatching(Manager() in calls)
      modifies this, eventQueue`curSize, eventQueue.heapMem
      ensures Valid() && s == Called(old(s), calls, replies, manageFd).(pc := Top)
      ensures old(Polling()) ==> TableKept()
    {
      CallAll(calls, replies);
      if s.pc.Dispatching? {
        DispatchMoves(start, trace, s);
        trace, s := trace + [Action.Dispatch], DoDispatch(s);
      }
    }

    // Line 269.
    method Dispatch(ready: set<nat>, replies: seq<seq<Request>>)
      requires Valid() && Watching() && s.pc == Dispatching(pipe != []) && (manageFd in ready <==> pipe != [])
      modifies this, eventQueue`curSize, eventQueue.heapMem
      modifies fdPoll, fdPoll.repr
      ensures Valid() && Watching() == old(Watching()) && s.pc.Top?
      ensures (s, fdPoll.table.cells) == Dispatched(old(s), old(fdPoll.table.cells), ready, replies, manageFd)
      ensures fdPoll.repr == old(fdPoll.repr)
    {
      var calls := TakeReadable(ready);
      RunCallbacks(calls, replies);
    }

    // Lines 260 to 273.
    method EndPass(outcome: Outcome, event: Option<Event>, turn: Turn)
      requires Valid() && Watching() && event == s.peeked && OutcomeFits(outcome)
      modifies this, eventQueue`curSize, eventQueue.heapMem
      modifies fdPoll, fdPoll.repr
      ensures Valid()
      ensures Polling() == old(Polling()) && (SparesPipe(turn.onTimeout, manageFd) ==> Watching())
      ensures (s, fdPoll.table.cells) == PassEnded(old(s), old(fdPoll.table.cells), outcome, turn, manageFd)
      ensures if outcome.Blocked? then s.pc.Selecting? else s.pc.Top?
      ensures fresh(fdPoll.repr - old(fdPoll.repr))
    {
      match outcome
      case TimedOut => var _ := FireAndPop(event.value, turn.onTimeout);
      case Readable(ready) => Dispatch(ready, turn.replies);
      case Interrupted =>
      case Blocked =>
    }

    // Lines 216 to 254, with what other threads do while the engine is in select.
    method BeginWait(turn: Turn) returns (event: Option<Event>, selectTm: Option<Time>, began: nat)
      requires Valid() && Polling() && s.pc.Top? && needContinue
      modifies this, eventQueue`curSize, eventQueue.heapMem
      modifies fdPoll, fdPoll.repr
      ensures Valid() && Polling() == old(Polling()) && s.pc.Selecting?
      ensures SparesPipe(turn.during, manageFd) && old(Watching()) ==> Watching()
      ensures (s, fdPoll.table.cells) == Demands(DoPeek(old(s)), old(fdPoll.table.cells), turn.during)
      ensures event == s.peeked && (selectTm.None? <==> event.None?) && began == s.peekedAt <= clock
      ensures event.Some? ==> selectTm == Some(WaitFor(ClockAt(began), event.value.time))
      ensures fresh(fdPoll.repr - old(fdPoll.repr))
      ensures fdPoll.m == Registrations(old(fdPoll.m), turn.during) && (fdPoll.m != old(fdPoll.m) ==> pipe != [])
    {
      NoLostWakeUpForFds(DoPeek(s), fdPoll.table.cells, fdPoll.m, turn.during);
      event, selectTm := BeginPass();
      began := clock;
      GrantAll(turn.during);
    }

    // Lines 254 to 273.
    method Resume(turn: Turn, event: Option<Event>, selectTm: Option<Time>, began: nat)
      requires Valid() && Watching() && s.pc.Selecting?
      requires event == s.peeked && (selectTm.None? <==> event.None?) && began == s.peekedAt <= clock
      requires event.Some? ==> selectTm == Some(WaitFor(ClockAt(began), event.value.time))
      modifies this, eventQueue`curSize, eventQueue.heapMem
      modifies fdPoll, fdPoll.repr
      ensures Valid() && (s.pc.Top? || s.pc.Selecting?)
      ensures Polling() == old(Polling()) && (SparesPipe(turn.onTimeout, manageFd) ==> Watching())
      ensures (s, fdPoll.table.cells) == Resumed(old(s), old(fdPoll.table.cells), turn, manageFd)
      ensures fresh(fdPoll.repr - old(fdPoll.repr))
    {
      var outcome := Select(turn, began, selectTm);
      EndPass(outcome, event, turn);
    }

    // In every state the engine reaches: the pass to come fires the root, if
    // nothing but time can end its wait.
    lemma RootFiresNext(turn: Turn)
      requires Valid() && Polling() && s.pc.Top?
      ensures Undisturbed(s, turn, manageFd) && |s.heap| > 1 ==>
                EnginePass.Passed(s, fdPoll.table.cells, turn, manageFd).0.fired == s.fired + [s.heap[1]]
      ensures s.fired == s.popped
    {
      FiredArePopped(start, trace, s);
      ReachedDeadlines(start, trace, s);
      if Undisturbed(s, turn, manageFd) && |s.heap| > 1 {
        RootFires(s, fdPoll.table.cells, fdPoll.m, turn, manageFd);
      }
    }

    // And the loop to come fires an event in each of the calm turns to come.
    lemma EventsFire(turns: seq<Turn>)
      requires Valid() && Polling() && s.pc.Top?
      ensures needContinue && pipe == [] && AllCalm(turns, manageFd) && |turns| < |s.heap| ==>
                var s' := Performed(s, fdPoll.table.cells, turns, manageFd).0;
                s'.pc.Top? && s'.needContinue && |s'.fired| == |s.fired| + |turns| && s.fired <= s'.fired
    {
      ReachedDeadlines(start, trace, s);
      if needContinue && pipe == [] && AllCalm(turns, manageFd) && |turns| < |s.heap| {
        LoopFires(s, fdPoll.table.cells, fdPoll.m, turns, manageFd);
      }
    }

    // One pass of the loop of select_engine_perform.
    method Pass(turn: Turn)
      requires Valid() && Watching() && s.pc.Top? && needContinue
      requires SparesPipe(turn.during, manageFd)
      modifies this, eventQueue`curSize, eventQueue.heapMem
      modifies fdPoll, fdPoll.repr
      ensures Valid() && (s.pc.Top? || s.pc.Selecting?)
      ensures Polling() == old(Polling()) && (SparesPipe(turn.onTimeout, manageFd) ==> Watching())
      ensures (s, fdPoll.table.cells) == EnginePass.Passed(old(s), old(fdPoll.table.cells), turn, manageFd)
      ensures fresh(fdPoll.repr - old(fdPoll.repr))
    {
      var event, selectTm, began := BeginWait(turn);
      Resume(turn, event, selectTm, began);
    }

    // Line 276.
    method Leave()
      requires Valid() && s.pc.Top? && !needContinue
      modifies this`needContinue, this`trace, this`s
      ensures Valid() && s == Left(old(s))
      ensures old(Polling()) ==> TableKept()
    {
      StopMoves(start, trace, s);
      needContinue := true;
      trace, s := trace + [Lock], s.(pc := Stopped, needContinue := true);
    }

    // The loop of select_engine_perform, as far as `turns` go: it ends early when
    // a stop was asked for or when select has nothing to wait for.
    method Loop(turns: seq<Turn>)
      requires Valid() && Watching() && s.pc.Top? && ManagerIsSpared(turns)
      modifies this, eventQueue`curSize, eventQueue.heapMem
      modifies fdPoll, fdPoll.repr
      ensures Valid() && Watching() == old(Watching()) && (s.pc.Top? || s.pc.Selecting?)
      ensures (s, fdPoll.table.cells) == Performed(old(s), old(fdPoll.table.cells), turns, manageFd)
    {
      var i, blocked := 0, false;
      ghost var goal := Performed(s, fdPoll.table.cells, turns, manageFd);
      while needContinue && !blocked && i < |turns|
        invariant Valid() && Watching() == old(Watching()) && i <= |turns|
        invariant if blocked then s.pc.Selecting? else s.pc.Top?
        invariant fresh(fdPoll.repr - old(fdPoll.repr))
        invariant LeadsTo(turns, i, goal)
        decreases |turns| - i
      {
        blocked := NextPass(turns, i, goal);
        i := i + 1;
      }
      PerformedStops(s, fdPoll.table.cells, turns[i..], manageFd);
    }

    // The turns from `i` on lead to `goal`.
    ghost predicate LeadsTo(turns: seq<Turn>, i: nat, goal: (State, Table))
      requires i <= |turns| && Valid() && Polling()
      reads this, eventQueue, eventQueue.heapMem, fdPoll, fdPoll.repr
    {
      Performed(s, fdPoll.table.cells, turns[i..], manageFd) == goal
    }

    // One round of the loop, and whether select blocks for good.
    method NextPass(turns: seq<Turn>, i: nat, ghost goal: (State, Table)) returns (blocked: bool)
      requires Valid() && Watching() && s.pc.Top? && needContinue && i < |turns| && ManagerIsSpared(turns)
      requires LeadsTo(turns, i, goal)
      modifies this, eventQueue`curSize, eventQueue.heapMem
      modifies fdPoll, fdPoll.repr
      ensures Valid() && Watching() == old(Watching()) && if blocked then s.pc.Selecting? else s.pc.Top?
      ensures LeadsTo(turns, i + 1, goal)
      ensures fresh(fdPoll.repr - old(fdPoll.repr))
    {
      PerformedNext(s, fdPoll.table.cells, turns, i, manageFd);
      Pass(turns[i]);
      blocked := runningFlag;
    }

    ghost predicate ManagerIsSpared(turns: seq<Turn>) {
      forall i :: 0 <= i < |turns| ==>
        SparesPipe(turns[i].during, manageFd) && SparesPipe(turns[i].onTimeout, manageFd)
    }

    // select_engine_perform
    method Perform(turns: seq<Turn>)
      requires Valid() && Watching() && s.pc.Top? && ManagerIsSpared(turns)
      modifies this, eventQueue`curSize, eventQueue.heapMem
      modifies fdPoll, fdPoll.repr
      ensures Valid() && Watching() == old(Watching())
      ensures s == Left(Performed(old(s), old(fdPoll.table.cells), turns, manageFd).0)
      ensures fdPoll.table.cells == Performed(old(s), old(fdPoll.table.cells), turns, manageFd).1
      ensures s.fired == s.popped && multiset(s.scheduled) == multiset(s.fired) + Items(s.heap)
      ensures old(needContinue) && Stop in old(pipe) && turns != [] ==> s.pc.Stopped?
      ensures old(needContinue) && old(pipe) == [] && AllCalm(turns, manageFd) && |turns| < |old(s).heap| ==>
                |s.fired| == |old(s).fired| + |turns| && old(s).fired <= s.fired
    {
      if needContinue && Stop in pipe && turns != [] {
        StopEndsLoop(s, fdPoll.table.cells, turns, manageFd);
      }
      EventsFire(turns);
      Loop(turns);
      if !runningFlag && !needContinue {
        Leave();
      }
      FiredArePopped(start, trace, s);
    }
  }

  // select_engine_create
  method Create(manageFd: nat) returns (engine: SelectEngine)
    requires manageFd < 0x8000_0000
    ensures engine.Valid() && engine.Watching() && Initial(engine.s) && engine.manageFd == manageFd
  {
    var eventQueue := new PriQueue<Event>(PRI_QUEUE_SIZE, Precedes);
    var fdPoll := NewPoll(manageFd);
    engine := new SelectEngine(manageFd, eventQueue, fdPoll);
  }
}
