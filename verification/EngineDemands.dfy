// What other threads and callbacks get for what they ask of the engine, in terms
// of its history: events, messages and registrations.
module EngineDemands {
  import opened HeapModel
  import opened EngineTime
  import opened Engine
  import opened FdModel
  import opened EnginePass
  import opened EngineStop

  // ----- What is asked for -----

  // A call of select_engine_schedule_add that is not refused.
  predicate IsCall(d: Demand) {
    d.Ask? && d.request.SetTimer? && d.request.timer.timeous >= 0
  }

  function DelayOf(d: Demand): nat {
    if IsCall(d) then d.request.timer.delay else 0
  }

  // The time that the calls take.
  function Delays(ds: seq<Demand>): nat {
    if ds == [] then 0 else Delays(ds[..|ds| - 1]) + DelayOf(ds[|ds| - 1])
  }

  // The event of a call at clock `c`.
  function EventOf(c: nat, id: nat, d: Demand): seq<Event> {
    if IsCall(d) then [Event(id, Scheduled(ClockAt(c + d.request.timer.delay), d.request.timer.timeous))] else []
  }

  // The events of all calls, from clock `c` and identity `id` on.
  function Made(c: nat, id: nat, ds: seq<Demand>): seq<Event> {
    if ds == [] then []
    else
      var front := ds[..|ds| - 1];
      var made := Made(c, id, front);
      made + EventOf(c + Delays(front), id + |made|, ds[|ds| - 1])
  }

  // The message of one demand: a restart from whatever changes what the engine
  // is waiting for, if the lock is taken; a stop.
  function MessageOf(locked: bool, d: Demand): seq<Manage> {
    match d
    case Ask(AskStop) => [Stop]
    case Ask(SetTimer(t)) => if t.timeous >= 0 && (locked || t.contended) then [Restart] else []
    case AddFd(fd, _, _, _, contended) => if fd >= 0 && (locked || contended) then [Restart] else []
    case DelFd(fd, contended) => if fd >= 0 && (locked || contended) then [Restart] else []
  }

  function Messages(locked: bool, ds: seq<Demand>): seq<Manage> {
    if ds == [] then [] else Messages(locked, ds[..|ds| - 1]) + MessageOf(locked, ds[|ds| - 1])
  }

  ghost function RegistrationOf(m: FdMap, d: Demand): FdMap {
    match d
    case Ask(_) => m
    case AddFd(fd, cb, context, temporary, _) =>
      if fd < 0 then m else FdStep(m, FdOp.Add(EngineFd(fd, cb, context, temporary)))
    case DelFd(fd, _) => if fd < 0 then m else FdStep(m, FdOp.Del(fd))
  }

  // The registrations after the additions and deletions.
  ghost function Registrations(m: FdMap, ds: seq<Demand>): FdMap {
    if ds == [] then m else RegistrationOf(Registrations(m, ds[..|ds| - 1]), ds[|ds| - 1])
  }

  lemma OneRegistration(m: FdMap, d: Demand)
    ensures Registrations(m, [d]) == RegistrationOf(m, d)
  {
    assert [d][..0] == [];
  }

  // ----- Events -----

  function Least(a: int, b: int): int {
    if a <= b then a else b
  }

  // How many of `n` events the queue has room for.
  function Fitting(s: State, n: nat): nat
    requires 0 < |s.heap| <= PRI_QUEUE_SIZE + 1
  {
    Least(n, PRI_QUEUE_SIZE - (|s.heap| - 1))
  }

  // From `s` to `s'` the events `made` were offered to the queue: those that fit
  // are scheduled and pending, the others dropped, and nothing has left.
  ghost predicate Queues(s: State, s': State, made: seq<Event>)
    requires 0 < |s.heap| <= PRI_QUEUE_SIZE + 1
  {
    var n := Fitting(s, |made|);
    && s'.nextId == s.nextId + |made|
    && s'.scheduled == s.scheduled + made[..n] && s'.dropped == s.dropped + made[n..]
    && |s'.heap| == |s.heap| + n && Items(s'.heap) == Items(s.heap) + multiset(made[..n])
  }

  // One event offered to the queue.
  lemma OneQueued(s: State, s': State, e: Event)
    requires 0 < |s.heap| <= PRI_QUEUE_SIZE + 1 && s'.nextId == s.nextId + 1
    requires |s.heap| <= PRI_QUEUE_SIZE ==>
               s'.heap == Pushed(Precedes, s.heap, e) && s'.scheduled == s.scheduled + [e] && s'.dropped == s.dropped
    requires |s.heap| > PRI_QUEUE_SIZE ==>
               s'.heap == s.heap && s'.scheduled == s.scheduled && s'.dropped == s.dropped + [e]
    ensures Queues(s, s', [e])
  {
    var made := [e];
    assert made[..1] == made && made[1..] == [] && made[..0] == [] && made[0..] == made;
    if |s.heap| <= PRI_QUEUE_SIZE {
      PushAddsOne(Precedes, s.heap, e);
    }
  }

  lemma AnsweredFields(s: State, t: Timer, e: Event)
    requires s.heap != [] && t.timeous >= 0
    requires e == Event(s.nextId, Scheduled(ClockAt(s.clock + t.delay), t.timeous))
    ensures var s' := Answered(s, t);
            && s'.nextId == s.nextId + 1 && s'.clock == s.clock + t.delay
            && (|s.heap| <= PRI_QUEUE_SIZE ==>
                  && s'.heap == Pushed(Precedes, s.heap, e) && s'.scheduled == s.scheduled + [e]
                  && s'.dropped == s.dropped)
            && (|s.heap| > PRI_QUEUE_SIZE ==>
                  s'.heap == s.heap && s'.scheduled == s.scheduled && s'.dropped == s.dropped + [e])
            && s'.pipe == (if LockHeld(s) || t.contended then s.pipe + [Restart] else s.pipe)
  {
    var s1 := Later(s, t.delay);
    var s2 := DoStamp(s1, 0, t.timeous);
    assert s2.calls[0] == Stamped(e);
    var s3 := DoEnqueue(s2, 0);
    assert Answered(s, t) == DoTell(s3, 0, t.contended);
  }

  lemma CallQueues(s: State, d: Demand)
    requires 0 < |s.heap| <= PRI_QUEUE_SIZE + 1 && IsCall(d)
    ensures Queues(s, Answered(s, d.request.timer), EventOf(s.clock, s.nextId, d))
  {
    var t := d.request.timer;
    var e := Event(s.nextId, Scheduled(ClockAt(s.clock + t.delay), t.timeous));
    AnsweredFields(s, t, e);
    OneQueued(s, Answered(s, t), e);
  }

  lemma QueuesNothing(s: State, s': State)
    requires 0 < |s.heap| <= PRI_QUEUE_SIZE + 1
    requires s'.nextId == s.nextId && s'.scheduled == s.scheduled && s'.dropped == s.dropped && s'.heap == s.heap
    ensures Queues(s, s', [])
  {
  }

  lemma Regroup<T>(a: seq<T>, b: seq<T>, c: seq<T>)
    ensures (a + b) + c == a + (b + c)
  {
  }

  lemma SplitAt(first: seq<Event>, second: seq<Event>, room: nat, n1: nat, n2: nat, n: nat)
    requires n1 == Least(|first|, room) && n2 == Least(|second|, room - n1) && n == Least(|first + second|, room)
    ensures n == n1 + n2
    ensures (first + second)[..n] == first[..n1] + second[..n2]
    ensures (first + second)[n..] == first[n1..] + second[n2..]
  {
  }

  // One series of events after another.
  lemma QueuesOn(s: State, s1: State, s2: State, first: seq<Event>, second: seq<Event>)
    requires 0 < |s.heap| <= PRI_QUEUE_SIZE + 1 && Queues(s, s1, first)
    requires Queues(s1, s2, second)
    ensures Queues(s, s2, first + second)
  {
    var n, n1, n2 := Fitting(s, |first + second|), Fitting(s, |first|), Fitting(s1, |second|);
    SplitAt(first, second, PRI_QUEUE_SIZE + 1 - |s.heap|, n1, n2, n);
    Regroup(s.scheduled, first[..n1], second[..n2]);
    Regroup(s.dropped, first[n1..], second[n2..]);
  }

  lemma DemandQueues(s: State, t: Table, d: Demand)
    requires 0 < |s.heap| <= PRI_QUEUE_SIZE + 1
    ensures Queues(s, Demanded(s, t, d).0, EventOf(s.clock, s.nextId, d))
  {
    if IsCall(d) {
      CallQueues(s, d);
    } else {
      QueuesNothing(s, Demanded(s, t, d).0);
    }
  }

  lemma {:induction false} MadeOneMore(c: nat, id: nat, ds: seq<Demand>, front: seq<Demand>, c1: nat, id1: nat)
    requires ds != [] && front == ds[..|ds| - 1] && c1 == c + Delays(front) && id1 == id + |Made(c, id, front)|
    ensures Made(c, id, ds) == Made(c, id, front) + EventOf(c1, id1, ds[|ds| - 1])
  {
  }

  // Every demand leaves its message, and every call takes its time.
  lemma {:induction false} DemandsTell(s: State, t: Table, ds: seq<Demand>)
    requires s.heap != []
    ensures Demands(s, t, ds).0.clock == s.clock + Delays(ds)
    ensures Demands(s, t, ds).0.pipe == s.pipe + Messages(LockHeld(s), ds)
  {
    if ds != [] {
      var front, d := ds[..|ds| - 1], ds[|ds| - 1];
      var (s1, t1) := Demands(s, t, front);
      DemandsTell(s, t, front);
      DemandsSameTurn(s, t, front);
      DemandTells(s1, t1, d);
    }
  }

  lemma DemandTells(s: State, t: Table, d: Demand)
    requires s.heap != []
    ensures Demanded(s, t, d).0.clock == s.clock + DelayOf(d)
    ensures Demanded(s, t, d).0.pipe == s.pipe + MessageOf(LockHeld(s), d)
  {
    if IsCall(d) {
      var r := d.request.timer;
      AnsweredFields(s, r, Event(s.nextId, Scheduled(ClockAt(s.clock + r.delay), r.timeous)));
    }
  }

  // Every call makes its event, which is scheduled or dropped.
  lemma {:induction false} DemandsQueue(s: State, t: Table, ds: seq<Demand>)
    requires 0 < |s.heap| <= PRI_QUEUE_SIZE + 1
    ensures Queues(s, Demands(s, t, ds).0, Made(s.clock, s.nextId, ds))
  {
    if ds == [] {
      QueuesNothing(s, s);
    } else {
      var front, d := ds[..|ds| - 1], ds[|ds| - 1];
      var (s1, t1) := Demands(s, t, front);
      DemandsQueue(s, t, front);
      DemandsTell(s, t, front);
      DemandQueues(s1, t1, d);
      var first := Made(s.clock, s.nextId, front);
      MadeOneMore(s.clock, s.nextId, ds, front, s1.clock, s1.nextId);
      QueuesOn(s, s1, Demanded(s1, t1, d).0, first, EventOf(s1.clock, s1.nextId, d));
    }
  }

  // ----- Registrations -----

  lemma {:induction false} DemandsRegister(s: State, t: Table, m: FdMap, ds: seq<Demand>)
    requires s.heap != [] && FdPoll.Registers(t, m)
    ensures FdPoll.Registers(Demands(s, t, ds).1, Registrations(m, ds))
  {
    if ds != [] {
      var front, d := ds[..|ds| - 1], ds[|ds| - 1];
      var (s1, t1) := Demands(s, t, front);
      var m1 := Registrations(m, front);
      DemandsRegister(s, t, m, front);
      if d.AddFd? && d.fd >= 0 {
        FdPoll.AddRegisters(t1, m1, EngineFd(d.fd, d.cb, d.context, d.temporary));
      } else if d.DelFd? && d.fd >= 0 {
        FdPoll.DelRegisters(t1, m1, d.fd);
      }
    }
  }

  // No wake-up is lost for descriptors either: a change of the registrations
  // under the lock, and so while the engine is in select, leaves a message.
  lemma {:induction false} ChangeIsAnnounced(m: FdMap, ds: seq<Demand>)
    ensures Registrations(m, ds) != m ==> Messages(true, ds) != []
  {
    if ds != [] {
      ChangeIsAnnounced(m, ds[..|ds| - 1]);
    }
  }

  lemma NoLostWakeUpForFds(s: State, t: Table, m: FdMap, ds: seq<Demand>)
    requires 0 < |s.heap| <= PRI_QUEUE_SIZE + 1 && s.pc.Selecting? && FdPoll.Registers(t, m)
    ensures FdPoll.Registers(Demands(s, t, ds).1, Registrations(m, ds))
    ensures Registrations(m, ds) != m ==> Demands(s, t, ds).0.pipe != []
  {
    DemandsRegister(s, t, m, ds);
    ChangeIsAnnounced(m, ds);
    DemandsTell(s, t, ds);
  }

  // ----- The callback of an event -----

  // From `s` to `s'` the event `e` fired at clock `at`, the root was popped, and
  // what the callback asked for is scheduled or dropped, and announced.
  ghost predicate Fires(s: State, s': State, e: Event, at: nat, reply: seq<Demand>)
    requires 0 < |s.heap| <= PRI_QUEUE_SIZE + 1
  {
    var made := Made(at, s.nextId, reply);
    var n := Fitting(s, |made|);
    && s'.pc.Top? && s'.needContinue == s.needContinue
    && s'.fired == s.fired + [e] && |s'.popped| == |s.popped| + 1
    && s'.nextId == s.nextId + |made| && s'.clock == at + Delays(reply)
    && s'.scheduled == s.scheduled + made[..n] && s'.dropped == s.dropped + made[n..]
    && |s'.heap| == |s.heap| + n - 1
    && s'.pipe == s.pipe + Messages(false, reply)
  }

  lemma FiringServes(s: State, t: Table, m: FdMap, reply: seq<Demand>)
    requires 1 < |s.heap| <= PRI_QUEUE_SIZE + 1 && s.pc.Firing? && s.peeked.Some? && FdPoll.Registers(t, m)
    ensures Fires(s, FiredAndPopped(s, t, reply).0, s.peeked.value, s.clock, reply)
    ensures FdPoll.Registers(FiredAndPopped(s, t, reply).1, Registrations(m, reply))
  {
    DemandsQueue(DoFire(s), t, reply);
    DemandsTell(DoFire(s), t, reply);
    DemandsSameTurn(DoFire(s), t, reply);
    DemandsRegister(DoFire(s), t, m, reply);
  }

  // ----- The callbacks of descriptors -----

  function AsDemands(requests: seq<Request>): (ds: seq<Demand>)
    ensures |ds| == |requests| && forall i :: 0 <= i < |ds| ==> ds[i] == Ask(requests[i])
  {
    seq(|requests|, i requires 0 <= i < |requests| => Ask(requests[i]))
  }

  lemma {:induction false} AnswersAreDemands(s: State, t: Table, requests: seq<Request>)
    requires s.heap != []
    ensures Demands(s, t, AsDemands(requests)) == (Answers(s, requests), t)
  {
    if requests != [] {
      var n := |requests| - 1;
      assert AsDemands(requests)[..n] == AsDemands(requests[..n]);
      AnswersAreDemands(s, t, requests[..n]);
    }
  }

  // What the callbacks from the `k`-th on ask for; that of the pipe asks for
  // nothing.
  function RepliesFrom(calls: seq<EngineFd>, replies: seq<seq<Request>>, manageFd: nat, k: nat): seq<Request> {
    if |calls| <= k then []
    else
      var last := |calls| - 1;
      RepliesFrom(calls[..last], replies, manageFd, k)
      + if calls[last].fd == manageFd then [] else ReplyAt(replies, last)
  }

  lemma {:induction false} MoreDelays(a: seq<Demand>, b: seq<Demand>)
    ensures Delays(a + b) == Delays(a) + Delays(b)
  {
    if b == [] {
      assert a + b == a;
    } else {
      assert (a + b)[..|a + b| - 1] == a + b[..|b| - 1];
      MoreDelays(a, b[..|b| - 1]);
    }
  }

  lemma {:induction false} MoreMessages(locked: bool, a: seq<Demand>, b: seq<Demand>)
    ensures Messages(locked, a + b) == Messages(locked, a) + Messages(locked, b)
  {
    if b == [] {
      assert a + b == a;
    } else {
      assert (a + b)[..|a + b| - 1] == a + b[..|b| - 1];
      MoreMessages(locked, a, b[..|b| - 1]);
    }
  }

  lemma {:induction false} MoreMade(c: nat, id: nat, a: seq<Demand>, b: seq<Demand>, c1: nat, id1: nat)
    requires c1 == c + Delays(a) && id1 == id + |Made(c, id, a)|
    ensures Made(c, id, a + b) == Made(c, id, a) + Made(c1, id1, b)
  {
    if b == [] {
      assert a + b == a;
    } else {
      var front, all := b[..|b| - 1], a + b;
      assert all[..|all| - 1] == a + front;
      MoreMade(c, id, a, front, c1, id1);
      MoreDelays(a, front);
      var c2, id2 := c1 + Delays(front), id1 + |Made(c1, id1, front)|;
      MadeOneMore(c1, id1, b, front, c2, id2);
      MadeOneMore(c, id, all, a + front, c2, id2);
      Regroup(Made(c, id, a), Made(c1, id1, front), EventOf(c2, id2, b[|b| - 1]));
    }
  }

  lemma AsDemandsOfMore(a: seq<Request>, b: seq<Request>)
    ensures AsDemands(a + b) == AsDemands(a) + AsDemands(b)
  {
  }

  const EMPTY_TABLE: Table := [[]]

  lemma AnswersQueue(s: State, requests: seq<Request>)
    requires 0 < |s.heap| <= PRI_QUEUE_SIZE + 1
    ensures Queues(s, Answers(s, requests), Made(s.clock, s.nextId, AsDemands(requests)))
  {
    AnswersAreDemands(s, EMPTY_TABLE, requests);
    DemandsQueue(s, EMPTY_TABLE, AsDemands(requests));
  }

  lemma AnswersTell(s: State, requests: seq<Request>)
    requires s.heap != []
    ensures Answers(s, requests).clock == s.clock + Delays(AsDemands(requests))
    ensures Answers(s, requests).pipe == s.pipe + Messages(LockHeld(s), AsDemands(requests))
    ensures SameTurn(s, Answers(s, requests))
  {
    AnswersAreDemands(s, EMPTY_TABLE, requests);
    DemandsTell(s, EMPTY_TABLE, AsDemands(requests));
    AnswersSameTurn(s, requests);
  }

  // The callbacks take their time, and neither fire nor pop.
  lemma {:induction false} CallsTakeTime(s: State, calls: seq<EngineFd>, replies: seq<seq<Request>>, manageFd: nat)
    requires s.heap != []
    ensures var s' := Called(s, calls, replies, manageFd);
            && s'.clock == s.clock + Delays(AsDemands(RepliesFrom(calls, replies, manageFd, 0)))
            && s'.fired == s.fired && s'.popped == s.popped
  {
    if calls != [] {
      var last := |calls| - 1;
      var front, asked := calls[..last], RepliesFrom(calls[..last], replies, manageFd, 0);
      CallsTakeTime(s, front, replies, manageFd);
      if calls[last].fd == manageFd {
        assert asked + [] == asked;
      } else {
        AnswersTell(Called(s, front, replies, manageFd), ReplyAt(replies, last));
        AsDemandsOfMore(asked, ReplyAt(replies, last));
        MoreDelays(AsDemands(asked), AsDemands(ReplyAt(replies, last)));
      }
    }
  }

  // Every callback gets what it asks for.
  lemma {:induction false} CallsQueue(s: State, calls: seq<EngineFd>, replies: seq<seq<Request>>, manageFd: nat)
    requires 0 < |s.heap| <= PRI_QUEUE_SIZE + 1
    ensures Queues(s, Called(s, calls, replies, manageFd),
                   Made(s.clock, s.nextId, AsDemands(RepliesFrom(calls, replies, manageFd, 0))))
  {
    if calls == [] {
      QueuesNothing(s, s);
    } else {
      var last := |calls| - 1;
      var front, asked := calls[..last], RepliesFrom(calls[..last], replies, manageFd, 0);
      var s1 := Called(s, front, replies, manageFd);
      CallsQueue(s, front, replies, manageFd);
      if calls[last].fd == manageFd {
        assert asked + [] == asked;
        DrainQueuesSame(s, s1, Made(s.clock, s.nextId, AsDemands(asked)));
      } else {
        CallsTakeTime(s, front, replies, manageFd);
        AnswersQueueToo(s, s1, asked, ReplyAt(replies, last));
      }
    }
  }

  lemma DrainQueuesSame(s: State, s1: State, made: seq<Event>)
    requires 0 < |s.heap| <= PRI_QUEUE_SIZE + 1 && Queues(s, s1, made)
    ensures Queues(s, PipeDrained(s1), made)
  {
  }

  lemma AnswersQueueToo(s: State, s1: State, asked: seq<Request>, more: seq<Request>)
    requires 0 < |s.heap| <= PRI_QUEUE_SIZE + 1 && Queues(s, s1, Made(s.clock, s.nextId, AsDemands(asked)))
    requires s1.clock == s.clock + Delays(AsDemands(asked))
    ensures s1.heap != [] && Queues(s, Answers(s1, more), Made(s.clock, s.nextId, AsDemands(asked + more)))
  {
    var a, b := AsDemands(asked), AsDemands(more);
    AnswersQueue(s1, more);
    AsDemandsOfMore(asked, more);
    MoreMade(s.clock, s.nextId, a, b, s1.clock, s1.nextId);
    QueuesOn(s, s1, Answers(s1, more), Made(s.clock, s.nextId, a), Made(s1.clock, s1.nextId, b));
  }

  lemma FrontUnmanaged(calls: seq<EngineFd>, manageFd: nat, front: seq<EngineFd>)
    requires !Manages(calls, manageFd) && calls != [] && front == calls[..|calls| - 1]
    ensures !Manages(front, manageFd) && calls[|calls| - 1].fd != manageFd
  {
    assert forall i :: 0 <= i < |front| ==> front[i] == calls[i];
  }

  lemma MorePipe(s: State, s1: State, asked: seq<Request>, more: seq<Request>)
    requires s1.heap != [] && s1.pipe == s.pipe + Messages(LockHeld(s), AsDemands(asked))
    requires s1.pc == s.pc && s1.needContinue == s.needContinue
    ensures var s' := Answers(s1, more);
            && s'.pipe == s.pipe + Messages(LockHeld(s), AsDemands(asked + more))
            && s'.pc == s.pc && s'.needContinue == s.needContinue
  {
    AnswersTell(s1, more);
    AsDemandsOfMore(asked, more);
    MoreMessages(LockHeld(s), AsDemands(asked), AsDemands(more));
    Regroup(s.pipe, Messages(LockHeld(s), AsDemands(asked)), Messages(LockHeld(s), AsDemands(more)));
  }

  // Without the callback of the pipe the messages stay in it.
  lemma {:induction false} UnmanagedPipe(s: State, calls: seq<EngineFd>, replies: seq<seq<Request>>, manageFd: nat)
    requires s.heap != [] && !Manages(calls, manageFd)
    ensures var s' := Called(s, calls, replies, manageFd);
            && s'.pipe == s.pipe + Messages(LockHeld(s), AsDemands(RepliesFrom(calls, replies, manageFd, 0)))
            && s'.pc == s.pc && s'.needContinue == s.needContinue
  {
    if calls != [] {
      var last := |calls| - 1;
      var front, more := calls[..last], ReplyAt(replies, last);
      var asked, s1 := RepliesFrom(front, replies, manageFd, 0), Called(s, front, replies, manageFd);
      FrontUnmanaged(calls, manageFd, front);
      UnmanagedPipe(s, front, replies, manageFd);
      assert Called(s, calls, replies, manageFd) == Answers(s1, more);
      assert RepliesFrom(calls, replies, manageFd, 0) == asked + more;
      MorePipe(s, s1, asked, more);
    }
  }

  // With it at position `k` they are gone, but for those of later callbacks, and
  // the loop goes on exactly if no stop was among them.
  lemma {:induction false} ManagedPipe(s: State, calls: seq<EngineFd>, replies: seq<seq<Request>>, manageFd: nat,
                                       k: nat)
    requires s.heap != [] && s.pc.Dispatching?
    requires k < |calls| && forall i :: 0 <= i < |calls| ==> (calls[i].fd == manageFd <==> i == k)
    ensures var s' := Called(s, calls, replies, manageFd);
            var before := AsDemands(RepliesFrom(calls[..k], replies, manageFd, 0));
            var after := AsDemands(RepliesFrom(calls, replies, manageFd, k + 1));
            && s'.pc.Top? && s'.pipe == Messages(false, after)
            && s'.needContinue == (s.needContinue && Stop !in s.pipe + Messages(false, before))
  {
    var last := |calls| - 1;
    var front := calls[..last];
    var s1 := Called(s, front, replies, manageFd);
    if last == k {
      UnmanagedPipe(s, front, replies, manageFd);
    } else {
      var more, asked := ReplyAt(replies, last), RepliesFrom(front, replies, manageFd, k + 1);
      ManagedPipe(s, front, replies, manageFd, k);
      assert front[..k] == calls[..k];
      AnswersTell(s1, more);
      AsDemandsOfMore(asked, more);
      MoreMessages(LockHeld(s1), AsDemands(asked), AsDemands(more));
    }
  }
}
