// Why scheduling has to be one step: two runs in which the engine pops an event
// whose callback never ran, and runs again the one whose callback did.
module EngineRaces {
  import opened Common
  import opened HeapModel
  import opened EngineTime
  import opened Engine
  import opened EngineSafety

  const UNUSED := Event(0, Time(0, 0))
  const LATE := Event(0, Time(0, 10))
  const EARLY := Event(1, Time(0, 5))

  const START := State([UNUSED], 0, Top, None, 0, [], true, map[], 0, [], [], [], [], [])

  // LATE is due at 10; the clock reads 0.
  const ONE_PENDING := State([UNUSED, LATE], 0, Top, None, 0, [], true, map[], 1, [LATE], [], [], [], [LATE])

  // An event due before the only pending one becomes the root, and a pop takes
  // it.
  lemma EarlierTakesRoot()
    ensures Pushed(Precedes, [UNUSED], LATE) == [UNUSED, LATE]
    ensures Pushed(Precedes, [UNUSED, LATE], EARLY) == [UNUSED, EARLY, LATE]
    ensures Popped(Precedes, [UNUSED, EARLY, LATE]) == [UNUSED, LATE]
  {
    assert [UNUSED] + [LATE] == [UNUSED, LATE];
    assert [UNUSED, LATE][1 := LATE] == [UNUSED, LATE];
    assert [UNUSED, LATE] + [EARLY] == [UNUSED, LATE, EARLY];
    assert [UNUSED, LATE, EARLY][2 := LATE][1 := EARLY] == [UNUSED, EARLY, LATE];
    assert [UNUSED, EARLY, LATE][..2] == [UNUSED, EARLY];
    assert [UNUSED, EARLY][1 := LATE] == [UNUSED, LATE];
    assert [UNUSED, LATE][1 := LATE] == [UNUSED, LATE];
  }

  lemma RunsThree(s: State, a: Action, b: Action, c: Action, s1: State, s2: State, s3: State)
    requires s.heap != [] && Step(s, a) == Some(s1) && s1.heap != [] && Step(s1, b) == Some(s2)
    requires s2.heap != [] && Step(s2, c) == Some(s3) && s3.heap != []
    ensures Run(s, [a, b, c]) == Some(s3)
  {
    assert [a, b, c][1..] == [b, c];
    assert [b, c][1..] == [c];
    assert [c][1..] == [];
    assert Run(s2, [c]) == Some(s3);
    assert Run(s1, [b, c]) == Some(s3);
  }

  lemma OnePending()
    ensures Initial(START) && Run(START, [Schedule(0, 10, false)]) == Some(ONE_PENDING)
  {
    EarlierTakesRoot();
    var a := START.(calls := map[0 := Stamped(LATE)], nextId := 1);
    assert DoStamp(START, 0, 10) == a;
    var b := a.(calls := map[0 := Queued(LATE)], heap := [UNUSED, LATE], scheduled := [LATE], since := [LATE]);
    assert DoEnqueue(a, 0) == b;
    assert DoTell(b, 0, false) == ONE_PENDING;
    assert [Schedule(0, 10, false)][1..] == [];
  }

  // The engine has begun to wait for LATE; another thread has made EARLY and
  // not pushed it.
  const BOTH := ONE_PENDING.(
    pc := Selecting, peeked := Some(LATE), since := [], calls := map[1 := Stamped(EARLY)], nextId := 2)

  // The wait is over, EARLY is the root, nothing is in the pipe.
  const OVERTAKEN := BOTH.(
    pc := Firing, clock := 10, heap := [UNUSED, EARLY, LATE], calls := map[1 := Queued(EARLY)],
    scheduled := [LATE, EARLY], since := [EARLY])

  const FIRED := OVERTAKEN.(pc := Popping, fired := [LATE])

  const WRONG := FIRED.(pc := Top, heap := [UNUSED, LATE], popped := [EARLY])

  lemma WrongPop()
    ensures Run(OVERTAKEN, [Fire, PopEvent, Tick(0)]) == Some(WRONG)
  {
    EarlierTakesRoot();
    assert OVERTAKEN.fired + [LATE] == [LATE] && FIRED.popped + [EARLY] == [EARLY];
    RunsThree(OVERTAKEN, Fire, PopEvent, Tick(0), FIRED, WRONG, WRONG);
  }

  lemma PushThenTimeOut()
    ensures Run(ONE_PENDING, [Lock, Peek, Stamp(1, 5)]) == Some(BOTH)
    ensures Run(BOTH, [Enqueue(1), Tick(10), TimeOut]) == Some(OVERTAKEN)
  {
    EarlierTakesRoot();
    var s2 := ONE_PENDING.(pc := Locked);
    var s3 := s2.(pc := Selecting, peeked := Some(LATE), since := []);
    assert DoStamp(s3, 1, 5) == BOTH;
    RunsThree(ONE_PENDING, Lock, Peek, Stamp(1, 5), s2, s3, BOTH);
    var s5 := OVERTAKEN.(pc := Selecting, clock := 0);
    assert DoEnqueue(BOTH, 1) == s5;
    var s6 := s5.(clock := 10);
    RunsThree(BOTH, Enqueue(1), Tick(10), TimeOut, s5, s6, OVERTAKEN);
  }

  lemma TimeOutThenPush()
    ensures Run(ONE_PENDING, [Stamp(1, 5), Lock, Peek]) == Some(BOTH)
    ensures Run(BOTH, [Tick(10), TimeOut, Enqueue(1)]) == Some(OVERTAKEN)
  {
    EarlierTakesRoot();
    var s2 := ONE_PENDING.(calls := map[1 := Stamped(EARLY)], nextId := 2);
    assert DoStamp(ONE_PENDING, 1, 5) == s2;
    var s3 := s2.(pc := Locked);
    RunsThree(ONE_PENDING, Stamp(1, 5), Lock, Peek, s2, s3, BOTH);
    var s5 := BOTH.(clock := 10);
    var s6 := s5.(pc := Firing);
    assert DoEnqueue(s6, 1) == OVERTAKEN;
    RunsThree(BOTH, Tick(10), TimeOut, Enqueue(1), s5, s6, OVERTAKEN);
  }

  lemma Chain(first: seq<Action>, second: seq<Action>) returns (actions: seq<Action>)
    requires Run(ONE_PENDING, first) == Some(BOTH) && Run(BOTH, second) == Some(OVERTAKEN)
    ensures Initial(START) && Run(START, actions) == Some(WRONG)
  {
    OnePending();
    WrongPop();
    var last := [Fire, PopEvent, Tick(0)];
    RunsOn(BOTH, second, OVERTAKEN, last);
    RunsOn(ONE_PENDING, first, BOTH, second + last);
    RunsOn(START, [Schedule(0, 10, false)], ONE_PENDING, first + (second + last));
    actions := [Schedule(0, 10, false)] + (first + (second + last));
  }

  // The engine waits for LATE. A thread pushes EARLY; the wait ends before the
  // thread sends its wake-up. LATE fires, EARLY is popped, LATE stays queued.
  lemma TimeOutBetweenPushAndWakeUp() returns (actions: seq<Action>)
    ensures Initial(START) && Run(START, actions) == Some(WRONG)
    ensures WRONG.fired == [LATE] && WRONG.popped == [EARLY] && WRONG.heap == [UNUSED, LATE]
  {
    PushThenTimeOut();
    actions := Chain([Lock, Peek, Stamp(1, 5)], [Enqueue(1), Tick(10), TimeOut]);
  }

  // A thread reads the clock and is held up: EARLY is pushed once the wait for
  // LATE is over, when no wake-up is called for. The outcome is the same.
  lemma PushLongAfterReadingTheClock() returns (actions: seq<Action>)
    ensures Initial(START) && Run(START, actions) == Some(WRONG)
    ensures WRONG.fired == [LATE] && WRONG.popped == [EARLY] && WRONG.heap == [UNUSED, LATE]
  {
    TimeOutThenPush();
    actions := Chain([Stamp(1, 5), Lock, Peek], [Tick(10), TimeOut, Enqueue(1)]);
  }

  // From there the engine peeks at LATE, whose time has come, and runs its
  // callback again.
  const FIRED_TWICE := WRONG.(
    pc := Popping, peeked := Some(LATE), peekedAt := 10, since := [], fired := [LATE, LATE])

  lemma LateFiresAgain()
    ensures Run(WRONG, [Lock, Peek, TimeOut]) == Some(FIRED_TWICE.(pc := Firing, fired := [LATE]))
    ensures Run(FIRED_TWICE.(pc := Firing, fired := [LATE]), [Fire, Tick(0), Tick(0)]) == Some(FIRED_TWICE)
  {
    var s2 := WRONG.(pc := Locked);
    var s3 := FIRED_TWICE.(pc := Selecting, fired := [LATE]);
    var s4 := FIRED_TWICE.(pc := Firing, fired := [LATE]);
    RunsThree(WRONG, Lock, Peek, TimeOut, s2, s3, s4);
    assert s4.fired + [LATE] == [LATE, LATE];
    RunsThree(s4, Fire, Tick(0), Tick(0), FIRED_TWICE, FIRED_TWICE, FIRED_TWICE);
  }

  // One call, two firings of its event.
  lemma OneEventFiresTwice() returns (actions: seq<Action>)
    ensures Initial(START) && Run(START, actions) == Some(FIRED_TWICE)
    ensures multiset(FIRED_TWICE.fired)[LATE] == 2 && multiset(FIRED_TWICE.scheduled)[LATE] == 1
  {
    var first := TimeOutBetweenPushAndWakeUp();
    LateFiresAgain();
    var second, third := [Lock, Peek, TimeOut], [Fire, Tick(0), Tick(0)];
    RunsOn(WRONG, second, FIRED_TWICE.(pc := Firing, fired := [LATE]), third);
    RunsOn(START, first, WRONG, second + third);
    actions := first + (second + third);
  }
}
