// Stop requests: what other code can do to the engine during a pass, and that a
// stop ends the loop.
module EngineStop {
  import opened Engine
  import opened FdModel
  import opened EnginePass

  // ----- Calls of other code -----

  // Calls of other code leave the engine where it is, add messages and take time.
  predicate SameTurn(s: State, s': State) {
    && s'.pc == s.pc && s'.peeked == s.peeked && s'.peekedAt == s.peekedAt
    && s'.fired == s.fired && s'.popped == s.popped && s'.needContinue == s.needContinue
    && s.clock <= s'.clock && s.pipe <= s'.pipe
  }

  lemma AnsweredSameTurn(s: State, r: Timer)
    requires s.heap != []
    ensures SameTurn(s, Answered(s, r)) && (Stop in Answered(s, r).pipe ==> Stop in s.pipe)
  {
  }

  lemma {:induction false} AnswersSameTurn(s: State, requests: seq<Request>)
    requires s.heap != []
    ensures SameTurn(s, Answers(s, requests))
    ensures AskStop !in requests && Stop in Answers(s, requests).pipe ==> Stop in s.pipe
  {
    if requests != [] {
      var front, last := requests[..|requests| - 1], requests[|requests| - 1];
      AnswersSameTurn(s, front);
      if last.SetTimer? {
        AnsweredSameTurn(Answers(s, front), last.timer);
      }
    }
  }

  lemma DemandedSameTurn(s: State, t: Table, d: Demand)
    requires s.heap != []
    ensures SameTurn(s, Demanded(s, t, d).0)
    ensures d != Ask(AskStop) && Stop in Demanded(s, t, d).0.pipe ==> Stop in s.pipe
  {
    if d.Ask? && d.request.SetTimer? {
      AnsweredSameTurn(s, d.request.timer);
    }
  }

  lemma {:induction false} DemandsSameTurn(s: State, t: Table, ds: seq<Demand>)
    requires s.heap != []
    ensures SameTurn(s, Demands(s, t, ds).0)
    ensures Ask(AskStop) !in ds && Stop in Demands(s, t, ds).0.pipe ==> Stop in s.pipe
  {
    if ds != [] {
      var front, last := Demands(s, t, ds[..|ds| - 1]), ds[|ds| - 1];
      DemandsSameTurn(s, t, ds[..|ds| - 1]);
      DemandedSameTurn(front.0, front.1, last);
      assert last in ds;
    }
  }

  lemma OthersStay(m: FdMap, kept: EngineFd, e: EngineFd)
    requires Registered(m, kept) && e.fd != kept.fd
    ensures Registered(FdStep(m, FdOp.Add(e)), kept) && Registered(FdStep(m, FdOp.Del(e.fd)), kept)
  {
    if Decimal(e.fd) == Decimal(kept.fd) {
      DecimalIsInjective(e.fd, kept.fd);
    }
  }

  lemma ManagerStays(m: FdMap, ready: set<nat>, e: EngineFd)
    requires Registered(m, e) && !e.temporary
    ensures Registered(FdStep(m, FdOp.Readable(ready)), e)
    ensures Calls(m, FdOp.Readable(ready), e) <==> e.fd in ready
    ensures forall e' :: Calls(m, FdOp.Readable(ready), e') && e'.fd == e.fd ==> e' == e
  {
  }

  // ----- The callback of the pipe -----

  ghost predicate NobodyStops(replies: seq<seq<Request>>) {
    forall i :: 0 <= i < |replies| ==> AskStop !in replies[i]
  }

  // Whether the callback of the pipe is among the calls.
  ghost predicate Manages(calls: seq<EngineFd>, manageFd: nat) {
    exists i :: 0 <= i < |calls| && calls[i].fd == manageFd
  }

  lemma {:induction false} NotYetManaged(s: State, calls: seq<EngineFd>, replies: seq<seq<Request>>, manageFd: nat)
    requires s.heap != [] && !Manages(calls, manageFd)
    ensures var s' := Called(s, calls, replies, manageFd);
            SameTurn(s, s') && (NobodyStops(replies) && Stop in s'.pipe ==> Stop in s.pipe)
  {
    if calls != [] {
      var last := |calls| - 1;
      var front := Called(s, calls[..last], replies, manageFd);
      NotYetManaged(s, calls[..last], replies, manageFd);
      AnswersSameTurn(front, ReplyAt(replies, last));
    }
  }

  ghost predicate HonoursStop(s: State, s': State, replies: seq<seq<Request>>) {
    && (s'.needContinue ==> s.needContinue && Stop !in s.pipe)
    && (NobodyStops(replies) ==> s'.needContinue == (s.needContinue && Stop !in s.pipe))
  }

  lemma DrainHonoursStop(s: State, front: State, replies: seq<seq<Request>>)
    requires SameTurn(s, front) && (NobodyStops(replies) && Stop in front.pipe ==> Stop in s.pipe)
    ensures HonoursStop(s, PipeDrained(front), replies)
  {
  }

  // The callback of the pipe, run once among others, honours a stop that was in
  // the pipe; without one, only a stop that another callback asked for clears
  // `need_continue`.
  lemma {:induction false} CallsHonourStop(s: State, calls: seq<EngineFd>, replies: seq<seq<Request>>, manageFd: nat)
    requires s.heap != [] && Manages(calls, manageFd)
    requires forall i, j :: 0 <= i < j < |calls| ==> calls[i].fd != manageFd || calls[j].fd != manageFd
    ensures HonoursStop(s, Called(s, calls, replies, manageFd), replies)
  {
    var last := |calls| - 1;
    var rest := calls[..last];
    var front := Called(s, rest, replies, manageFd);
    if calls[last].fd == manageFd {
      NotYetManaged(s, rest, replies, manageFd);
      DrainHonoursStop(s, front, replies);
    } else {
      assert Manages(rest, manageFd) by {
        var i :| 0 <= i < |calls| && calls[i].fd == manageFd;
        assert rest[i].fd == manageFd;
      }
      CallsHonourStop(s, rest, replies, manageFd);
      AnswersSameTurn(front, ReplyAt(replies, last));
    }
  }

  // Without a stop in the pipe or asked for, the loop goes on.
  lemma {:induction false} QuietCalls(s: State, calls: seq<EngineFd>, replies: seq<seq<Request>>, manageFd: nat)
    requires s.heap != [] && NobodyStops(replies) && Stop !in s.pipe
    ensures var s' := Called(s, calls, replies, manageFd);
            s'.needContinue == s.needContinue && Stop !in s'.pipe
  {
    if calls != [] {
      var last := |calls| - 1;
      QuietCalls(s, calls[..last], replies, manageFd);
      AnswersSameTurn(Called(s, calls[..last], replies, manageFd), ReplyAt(replies, last));
    }
  }

  // ----- Whole passes -----

  function Manager(manageFd: nat): EngineFd {
    EngineFd(manageFd, 0, 0, false)
  }

  // The table `t` has the read end of the pipe in it.
  ghost predicate Watched(t: Table, manageFd: nat) {
    exists m :: FdPoll.Registers(t, m) && Registered(m, Manager(manageFd))
  }

  lemma DemandStaysWatched(s: State, t: Table, d: Demand, manageFd: nat)
    requires s.heap != [] && Watched(t, manageFd) && (!d.Ask? ==> d.fd != manageFd)
    ensures Watched(Demanded(s, t, d).1, manageFd)
  {
    var m :| FdPoll.Registers(t, m) && Registered(m, Manager(manageFd));
    if !d.Ask? && d.fd >= 0 {
      var e := if d.AddFd? then EngineFd(d.fd, d.cb, d.context, d.temporary) else EngineFd(d.fd, 0, 0, false);
      OthersStay(m, Manager(manageFd), e);
      FdPoll.AddRegisters(t, m, e);
      FdPoll.DelRegisters(t, m, d.fd);
      var op := if d.AddFd? then FdOp.Add(e) else FdOp.Del(e.fd);
      assert FdPoll.Registers(Demanded(s, t, d).1, FdStep(m, op));
    }
  }

  lemma {:induction false} DemandsStayWatched(s: State, t: Table, ds: seq<Demand>, manageFd: nat)
    requires s.heap != [] && Watched(t, manageFd) && SparesPipe(ds, manageFd)
    ensures Watched(Demands(s, t, ds).1, manageFd)
  {
    if ds != [] {
      var front := ds[..|ds| - 1];
      DemandsStayWatched(s, t, front, manageFd);
      DemandStaysWatched(Demands(s, t, front).0, Demands(s, t, front).1, ds[|ds| - 1], manageFd);
    }
  }

  // A readable pipe has its callback called, once.
  lemma WatchedIsManaged(t: Table, ready: set<nat>, manageFd: nat)
    requires Watched(t, manageFd) && manageFd in ready
    ensures var calls := FdPoll.ReadableOf(HashModel.Flat(t), ready);
            && Manages(calls, manageFd)
            && forall i, j :: 0 <= i < j < |calls| ==> calls[i].fd != manageFd || calls[j].fd != manageFd
  {
    var m :| FdPoll.Registers(t, m) && Registered(m, Manager(manageFd));
    var calls := FdPoll.ReadableOf(HashModel.Flat(t), ready);
    FdPoll.PassRegisters(t, m, ready);
    ManagerStays(m, ready, Manager(manageFd));
    var k :| 0 <= k < |calls| && calls[k] == Manager(manageFd);
    forall i, j | 0 <= i < j < |calls| ensures calls[i].fd != manageFd || calls[j].fd != manageFd {
      assert calls[i] in calls && calls[j] in calls;
    }
  }

  // A stop in the pipe when a pass begins ends the loop with that pass, whatever
  // else becomes readable and whatever others ask for meanwhile.
  lemma StopEndsPass(s: State, t: Table, turn: Turn, manageFd: nat)
    requires s.heap != [] && Watched(t, manageFd) && SparesPipe(turn.during, manageFd) && Stop in s.pipe
    ensures var s' := Passed(s, t, turn, manageFd).0;
            s'.pc.Top? && !s'.needContinue
  {
    var (s1, t1) := Demands(DoPeek(s), t, turn.during);
    DemandsSameTurn(DoPeek(s), t, turn.during);
    DemandsStayWatched(DoPeek(s), t, turn.during, manageFd);
    assert Stop in s1.pipe;
    var (s2, outcome) := Selected(s1, turn, manageFd);
    WatchedIsManaged(t1, outcome.ready, manageFd);
    CallsHonourStop(s2, FdPoll.ReadableOf(HashModel.Flat(t1), outcome.ready), turn.replies, manageFd);
  }

  lemma StopEndsLoop(s: State, t: Table, turns: seq<Turn>, manageFd: nat)
    requires s.heap != [] && s.pc.Top? && s.needContinue && turns != []
    requires Watched(t, manageFd) && SparesPipe(turns[0].during, manageFd) && Stop in s.pipe
    ensures Performed(s, t, turns, manageFd) == Passed(s, t, turns[0], manageFd)
    ensures Left(Performed(s, t, turns, manageFd).0).pc.Stopped?
  {
    StopEndsPass(s, t, turns[0], manageFd);
  }

  // Without a stop in the pipe, only one asked for during the pass can end the
  // loop with it.
  lemma StopNeedsAsking(s: State, t: Table, turn: Turn, manageFd: nat)
    requires s.heap != [] && s.needContinue && Stop !in s.pipe
    requires Ask(AskStop) !in turn.during && NobodyStops(turn.replies)
    ensures Passed(s, t, turn, manageFd).0.needContinue
  {
    var (s1, t1) := Demands(DoPeek(s), t, turn.during);
    DemandsSameTurn(DoPeek(s), t, turn.during);
    var (s2, outcome) := Selected(s1, turn, manageFd);
    if outcome.Readable? {
      QuietCalls(s2, FdPoll.ReadableOf(HashModel.Flat(t1), outcome.ready), turn.replies, manageFd);
    } else if outcome.TimedOut? {
      DemandsSameTurn(DoFire(s2), t1, turn.onTimeout);
    }
  }
}
