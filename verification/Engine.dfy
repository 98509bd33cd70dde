// The timer protocol of select.c as a transition system: one engine thread
// looping in select_engine_perform, any number of threads (and callbacks)
// scheduling events, a wake-up pipe and a clock that never runs backwards.
module Engine {
  import opened Common
  import opened HeapModel
  import opened EngineTime

  const PRI_QUEUE_SIZE := 50

  // An allocated engine_event_t; `id` is its identity.
  datatype Event = Event(id: nat, time: Time)

  // __event_queue_pri_comp
  predicate Precedes(a: Event, b: Event) {
    NotLater(a.time, b.time)
  }

  lemma PrecedesIsTotalPreorder()
    ensures TotalPreorder(Precedes)
  {
  }

  // Where the engine thread is. It holds `running_flag` in Locked and Selecting.
  datatype Pc =
    | Top                            // line 216
    | Locked                         // after line 221
    | Selecting                      // in select, line 254
    | Firing                         // timed out, before the callback, line 262
    | Popping                        // after the callback, line 263
    | Dispatching(pipeReady: bool)   // some fd readable, line 269
    | Stopped                        // line 276

  datatype Manage = Restart | Stop

  // A call of select_engine_schedule_add under way: after line 181, and after
  // line 196.
  datatype Call = Stamped(event: Event) | Queued(event: Event)

  datatype State = State(
    heap: seq<Event>,          // the event queue, slot 0 unused
    clock: nat,                // microseconds
    pc: Pc,
    peeked: Option<Event>,     // `event`, as left by line 228
    peekedAt: nat,             // the clock read at line 237
    pipe: seq<Manage>,
    needContinue: bool,
    calls: map<nat, Call>,     // by thread
    nextId: nat,
    scheduled: seq<Event>,     // history: what the queue accepted
    dropped: seq<Event>,       // history: what the full queue rejected
    fired: seq<Event>,         // history: whose callbacks ran
    popped: seq<Event>,        // history: what line 263 took out
    since: seq<Event>)         // history: what was queued after the last peek

  predicate LockHeld(s: State) {
    s.pc.Locked? || s.pc.Selecting?
  }

  predicate Initial(s: State) {
    && |s.heap| == 1 && s.pc.Top? && s.peeked.None? && s.pipe == [] && s.needContinue && s.nextId == 0
    && s.calls == map[] && s.scheduled == [] && s.dropped == []
    && s.fired == [] && s.popped == [] && s.since == []
  }

  datatype Action =
    | Tick(delta: nat)
    | Stamp(thread: nat, timeout: nat)                    // lines 178-193
    | Enqueue(thread: nat)                                // line 196
    | Tell(thread: nat, contended: bool)                  // line 197
    | Schedule(thread: nat, timeout: nat, contended: bool)  // all of it at once
    | Reload(contended: bool)                             // after a descriptor is added or deleted
    | RequestStop                                         // select_engine_stop
    | Lock
    | Peek
    | TimeOut
    | Ready
    | Interrupt
    | Fire
    | PopEvent
    | Dispatch

  function DoStamp(s: State, thread: nat, timeout: nat): State {
    var e := Event(s.nextId, Scheduled(ClockAt(s.clock), timeout));
    s.(calls := s.calls[thread := Stamped(e)], nextId := s.nextId + 1)
  }

  // A full queue rejects the event, and the caller is not told.
  function DoEnqueue(s: State, thread: nat): State
    requires s.heap != [] && thread in s.calls
  {
    var e := s.calls[thread].event;
    var called := s.(calls := s.calls[thread := Queued(e)]);
    if |s.heap| - 1 < PRI_QUEUE_SIZE then
      called.(heap := Pushed(Precedes, s.heap, e), scheduled := s.scheduled + [e], since := s.since + [e])
    else
      called.(dropped := s.dropped + [e])
  }

  // __engine_reload: a message if the lock is taken, by the engine or for an
  // instant by another scheduling thread.
  function DoReload(s: State, contended: bool): State {
    if LockHeld(s) || contended then s.(pipe := s.pipe + [Restart]) else s
  }

  function DoTell(s: State, thread: nat, contended: bool): State {
    DoReload(s.(calls := s.calls - {thread}), contended)
  }

  function DoSchedule(s: State, thread: nat, timeout: nat, contended: bool): State
    requires s.heap != []
  {
    DoTell(DoEnqueue(DoStamp(s, thread, timeout), thread), thread, contended)
  }

  function DoPeek(s: State): State
    requires s.heap != []
  {
    s.(pc := Selecting, peeked := if |s.heap| > 1 then Some(s.heap[1]) else None, peekedAt := s.clock, since := [])
  }

  // select returns 0: no descriptor became readable and the wait is over.
  predicate MayTimeOut(s: State) {
    && s.pc.Selecting? && s.peeked.Some? && s.pipe == []
    && s.clock >= s.peekedAt + Total(WaitFor(ClockAt(s.peekedAt), s.peeked.value.time))
  }

  // Lines 262 and 263: the callback runs, then the root is popped, whatever it
  // is by then.
  function DoFire(s: State): State
    requires s.peeked.Some?
  {
    s.(pc := Popping, fired := s.fired + [s.peeked.value])
  }

  function DoPop(s: State): State {
    if |s.heap| > 1
    then s.(pc := Top, heap := Popped(Precedes, s.heap), popped := s.popped + [s.heap[1]])
    else s.(pc := Stopped, needContinue := true)
  }

  // __manage_fd_callback, if the pipe was among the readable descriptors.
  function DoDispatch(s: State): State
    requires s.pc.Dispatching?
  {
    if s.pc.pipeReady
    then s.(pc := Top, pipe := [], needContinue := s.needContinue && Stop !in s.pipe)
    else s.(pc := Top)
  }

  // The state after `a`, or None where `a` cannot happen.
  function Step(s: State, a: Action): Option<State>
    requires s.heap != []
  {
    match a
    case Tick(delta) => Some(s.(clock := s.clock + delta))
    case Stamp(t, timeout) => if t !in s.calls then Some(DoStamp(s, t, timeout)) else None
    case Enqueue(t) => if t in s.calls && s.calls[t].Stamped? then Some(DoEnqueue(s, t)) else None
    case Tell(t, contended) => if t in s.calls && s.calls[t].Queued? then Some(DoTell(s, t, contended)) else None
    case Schedule(t, timeout, contended) =>
      if t !in s.calls then Some(DoSchedule(s, t, timeout, contended)) else None
    case Reload(contended) => Some(DoReload(s, contended))
    case RequestStop => Some(s.(pipe := s.pipe + [Stop]))
    case Lock =>
      if !s.pc.Top? then None
      else if s.needContinue then Some(s.(pc := Locked))
      else Some(s.(pc := Stopped, needContinue := true))
    case Peek => if s.pc.Locked? then Some(DoPeek(s)) else None
    case TimeOut => if MayTimeOut(s) then Some(s.(pc := Firing)) else None
    case Ready => if s.pc.Selecting? then Some(s.(pc := Dispatching(s.pipe != []))) else None
    case Interrupt => if s.pc.Selecting? then Some(s.(pc := Top)) else None
    case Fire => if s.pc.Firing? && s.peeked.Some? then Some(DoFire(s)) else None
    case PopEvent => if s.pc.Popping? then Some(DoPop(s)) else None
    case Dispatch => if s.pc.Dispatching? then Some(DoDispatch(s)) else None
  }

  lemma StepKeepsArray(s: State, a: Action)
    requires s.heap != []
    ensures Step(s, a).Some? ==> Step(s, a).value.heap != []
  {
  }

  // ----- What holds in every interleaving -----

  // The engine remembers an event it has peeked at and not yet popped.
  predicate Holding(s: State) {
    (s.pc.Selecting? || s.pc.Firing? || s.pc.Popping?) && s.peeked.Some?
  }

  // Accepted events are popped or pending, none twice; the peeked event is
  // still pending.
  ghost predicate Conserved(s: State) {
    && s.heap != []
    && multiset(s.scheduled) == multiset(s.popped) + Items(s.heap)
    && |s.fired| == |s.popped| + (if s.pc.Popping? then 1 else 0)
    && (Holding(s) ==> s.peeked.value in Items(s.heap))
    && (s.pc.Firing? || s.pc.Popping? ==> s.peeked.Some?)
    && (s.pc.Popping? ==> s.fired != [] && s.fired[|s.fired| - 1] == s.peeked.value)
  }

  // The root is the peeked event unless an event queued since precedes it.
  ghost predicate RootTracked(s: State) {
    && s.heap != []
    && (Holding(s) && (forall x :: x in s.since ==> Precedes(s.peeked.value, x)) ==>
          |s.heap| > 1 && s.heap[1] == s.peeked.value)
    && (s.pc.Selecting? && s.peeked.None? && s.since == [] ==> |s.heap| == 1)
  }

  // In select, an event queued since the peek has put a message in the pipe or
  // its scheduler has still to do so.
  ghost predicate Announced(s: State) {
    s.pc.Selecting? && s.pipe == [] ==>
      forall x :: x in s.since ==> exists t :: t in s.calls && s.calls[t] == Queued(x)
  }

  // At clock `c` the deadline has passed, or is less than a second ahead and
  // was written without its carry.
  predicate NotEarly(x: Event, c: nat) {
    && Total(x.time) <= c + (MILLION - 2)
    && (Normal(x.time) ==> Total(x.time) <= c)
  }

  ghost predicate Timed(s: State) {
    && (forall x :: x in s.scheduled ==> Deadline(x.time))
    && (forall t :: t in s.calls ==> Deadline(s.calls[t].event.time))
    && (Holding(s) ==> Deadline(s.peeked.value.time) && s.peekedAt <= s.clock)
    && (s.pc.Firing? || s.pc.Popping? ==>
          s.peeked.Some? && s.clock >= s.peekedAt + Total(WaitFor(ClockAt(s.peekedAt), s.peeked.value.time)))
    && (forall x :: x in s.fired ==> NotEarly(x, s.clock))
  }
}
