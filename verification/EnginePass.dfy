// What one pass of select_engine_perform does, as a function of the state, the
// descriptor table and what happens outside: select's outcome and the calls
// that other threads and callbacks make.
module EnginePass {
  import opened Common
  import opened EngineTime
  import opened Engine
  import HashModel
  import opened FdModel
  import FdPoll

  // A call of select_engine_schedule_add, `delay` microseconds after the last.
  datatype Timer = Timer(delay: nat, timeous: int, contended: bool)

  // What a callback or another thread may ask at any time.
  datatype Request = SetTimer(timer: Timer) | AskStop

  // What it may ask while nobody iterates over the descriptors.
  datatype Demand =
    | Ask(request: Request)
    | AddFd(fd: int32, cb: nat, context: nat, temporary: bool, contended: bool)
    | DelFd(fd: int32, contended: bool)

  // What happens during one pass: calls by other threads while the engine is in
  // select, the outcome of select, and the calls made by the callback of an
  // event or by each callback of a descriptor.
  datatype Turn = Turn(
    during: seq<Demand>,
    elapsed: nat,
    readable: set<nat>,
    interrupted: bool,
    onTimeout: seq<Demand>,
    replies: seq<seq<Request>>)

  datatype Outcome = TimedOut | Readable(ready: set<nat>) | Interrupted | Blocked

  type Table = t: HashModel.Buckets<EngineFd> | t != [] witness [[]]

  function Later(s: State, delay: nat): State {
    s.(clock := s.clock + delay)
  }

  function Answered(s: State, t: Timer): (s': State)
    requires s.heap != []
    ensures s'.heap != []
  {
    if t.timeous < 0 then s else DoSchedule(Later(s, t.delay), 0, t.timeous, t.contended)
  }

  function Asked(s: State, r: Request): (s': State)
    requires s.heap != []
    ensures s'.heap != []
  {
    match r
    case SetTimer(t) => Answered(s, t)
    case AskStop => s.(pipe := s.pipe + [Stop])
  }

  function Answers(s: State, requests: seq<Request>): (s': State)
    requires s.heap != []
    ensures s'.heap != []
  {
    if requests == [] then s
    else Asked(Answers(s, requests[..|requests| - 1]), requests[|requests| - 1])
  }

  // Adding and deleting descriptors is told to an engine in select.
  function Demanded(s: State, t: Table, d: Demand): (r: (State, Table))
    requires s.heap != []
    ensures r.0.heap != []
  {
    match d
    case Ask(request) => (Asked(s, request), t)
    case AddFd(fd, cb, context, temporary, contended) =>
      if fd < 0 then (s, t)
      else (DoReload(s, contended), HashModel.Pushed(t, FdHash, Decimal(fd), EngineFd(fd, cb, context, temporary)))
    case DelFd(fd, contended) =>
      if fd < 0 then (s, t)
      else (DoReload(s, contended), HashModel.Popped(t, FdHash, Decimal(fd)))
  }

  function Demands(s: State, t: Table, ds: seq<Demand>): (r: (State, Table))
    requires s.heap != []
    ensures r.0.heap != []
  {
    if ds == [] then (s, t)
    else
      var (s', t') := Demands(s, t, ds[..|ds| - 1]);
      Demanded(s', t', ds[|ds| - 1])
  }

  // Nobody but the engine registers or deletes the read end of its pipe.
  ghost predicate SparesPipe(ds: seq<Demand>, manageFd: nat) {
    forall i :: 0 <= i < |ds| && !ds[i].Ask? ==> ds[i].fd != manageFd
  }

  function Returned(s: State, delay: nat, a: Action): State {
    Later(s, delay).(pc := if a.Ready? then Dispatching(s.pipe != []) else if a.TimeOut? then Firing else Top)
  }

  // How much longer select waits at least, given that nothing becomes readable.
  function TimeLeft(s: State): nat
    requires s.peeked.Some?
  {
    var end := s.peekedAt + Total(WaitFor(ClockAt(s.peekedAt), s.peeked.value.time));
    if s.clock < end then end - s.clock else 0
  }

  function Selected(s: State, turn: Turn, manageFd: nat): (r: (State, Outcome))
    ensures r.0.heap == s.heap && (r.1.TimedOut? ==> r.0.peeked.Some?)
  {
    var others := turn.readable - {manageFd};
    if s.pipe != [] then (Returned(s, turn.elapsed, Ready), Outcome.Readable(others + {manageFd}))
    else if others != {} then (Returned(s, turn.elapsed, Ready), Outcome.Readable(others))
    else if turn.interrupted then (Returned(s, turn.elapsed, Interrupt), Interrupted)
    else if s.peeked.None? then (s, Blocked)
    else (Returned(s, TimeLeft(s) + turn.elapsed, TimeOut), TimedOut)
  }

  function ReplyAt(replies: seq<seq<Request>>, i: nat): seq<Request> {
    if i < |replies| then replies[i] else []
  }

  // Lines 262 and 263, with what the callback asks for in between.
  function FiredAndPopped(s: State, t: Table, reply: seq<Demand>): (r: (State, Table))
    requires s.heap != [] && s.peeked.Some?
    ensures r.0.heap != []
  {
    var (s', t') := Demands(DoFire(s), t, reply);
    (DoPop(s'), t')
  }

  function PipeDrained(s: State): State {
    s.(pc := Top, pipe := [], needContinue := s.needContinue && Stop !in s.pipe)
  }

  // One callback: that of the pipe drains it, another may schedule events.
  function CalledOne(s: State, call: EngineFd, reply: seq<Request>, manageFd: nat): (s': State)
    requires s.heap != []
    ensures s'.heap != []
  {
    if call.fd == manageFd then PipeDrained(s) else Answers(s, reply)
  }

  function Called(s: State, calls: seq<EngineFd>, replies: seq<seq<Request>>, manageFd: nat): (s': State)
    requires s.heap != []
    ensures s'.heap != []
  {
    if calls == [] then s
    else
      var last := |calls| - 1;
      var front := Called(s, calls[..last], replies, manageFd);
      CalledOne(front, calls[last], ReplyAt(replies, last), manageFd)
  }

  // One pass over the readable descriptors of the table `t`.
  function Dispatched(s: State, t: Table, ready: set<nat>, replies: seq<seq<Request>>, manageFd: nat)
    : (r: (State, Table))
    requires s.heap != []
    ensures r.0.heap != []
  {
    (Called(s, FdPoll.ReadableOf(HashModel.Flat(t), ready), replies, manageFd).(pc := Top),
     HashModel.Swept(t, |t|, 0, FdPoll.Expires(ready)))
  }

  function PassEnded(s: State, t: Table, outcome: Outcome, turn: Turn, manageFd: nat): (r: (State, Table))
    requires s.heap != [] && (outcome.TimedOut? ==> s.peeked.Some?)
    ensures r.0.heap != []
  {
    match outcome
    case TimedOut => FiredAndPopped(s, t, turn.onTimeout)
    case Readable(ready) => Dispatched(s, t, ready, turn.replies, manageFd)
    case Interrupted => (s, t)
    case Blocked => (s, t)
  }

  // From the call of select on.
  function Resumed(s: State, t: Table, turn: Turn, manageFd: nat): (r: (State, Table))
    requires s.heap != []
    ensures r.0.heap != []
  {
    var (s', outcome) := Selected(s, turn, manageFd);
    PassEnded(s', t, outcome, turn, manageFd)
  }

  function Passed(s: State, t: Table, turn: Turn, manageFd: nat): (r: (State, Table))
    requires s.heap != []
    ensures r.0.heap != []
  {
    var (s', t') := Demands(DoPeek(s), t, turn.during);
    Resumed(s', t', turn, manageFd)
  }

  // Pass after pass, until a stop was asked for or select blocks for good.
  function Performed(s: State, t: Table, turns: seq<Turn>, manageFd: nat): (r: (State, Table))
    requires s.heap != []
    ensures r.0.heap != []
    decreases |turns|
  {
    if turns == [] || !s.pc.Top? || !s.needContinue then (s, t)
    else
      var (s', t') := Passed(s, t, turns[0], manageFd);
      Performed(s', t', turns[1..], manageFd)
  }

  // Line 276.
  function Left(s: State): State {
    if s.pc.Top? && !s.needContinue then s.(pc := Stopped, needContinue := true) else s
  }
}
