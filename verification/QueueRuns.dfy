// Whole runs of queue and cancel requests: what the waiting list is, compared
// with the viewers still waiting in arrival order.
module QueueRuns {
  import opened Common
  import opened WaitingList
  import opened StableOrder

  // ----- Runs -----

  datatype Op = QueueUp(anchorage: uint32, data: UnitData) | Cancel(anchorage: uint32)

  function Step(q: QState, op: Op): (QState, Errno)
    requires q.cache.Some? ==> IsWaiting(q.units, q.cache.value)
  {
    match op
    case QueueUp(a, d) => AppendUpdated(q, a, d)
    case Cancel(a) => Subtracted(q, a)
  }

  lemma StepWellFormed(q: QState, op: Op)
    requires WellFormed(q)
    ensures WellFormed(Step(q, op).0)
  {
    match op
    case QueueUp(a, d) => AppendUpdatedWellFormed(q, a, d);
    case Cancel(a) => SubtractedWellFormed(q, a);
  }

  // The reference: the viewers still waiting, in arrival order. It knows
  // neither the sorted list nor the cache.
  ghost function ReferenceStep(arrivals: seq<Unit>, op: Op): (seq<Unit>, Errno) {
    match op
    case Cancel(a) =>
      if IsWaiting(arrivals, a) then (Without(arrivals, a), Ok) else (arrivals, ErrResource)
    case QueueUp(a, d) =>
      if IsWaiting(arrivals, a) then (Redata(arrivals, a, d), Ok)
      else if TiesAtTop(arrivals, d.weight) then (arrivals, ErrUnknown)
      else (arrivals + [Unit(a, d)], Ok)
  }

  ghost predicate Refines(q: QState, arrivals: seq<Unit>) {
    WellFormed(q) && UniqueAnchorages(arrivals) && IsStableSortOf(q.units, arrivals)
  }

  lemma SameAnchorages(q: QState, arrivals: seq<Unit>, a: uint32)
    requires Refines(q, arrivals)
    ensures IsWaiting(q.units, a) <==> IsWaiting(arrivals, a)
  {
    SortMembers(q.units, arrivals);
    MemberIsWaiting(q.units, a);
    MemberIsWaiting(arrivals, a);
    if IsWaiting(q.units, a) {
      assert q.units[IndexOf(q.units, a)] in arrivals;
    }
    if IsWaiting(arrivals, a) {
      assert arrivals[IndexOf(arrivals, a)] in q.units;
    }
  }

  lemma TieTransfers(q: QState, arrivals: seq<Unit>, w: uint32)
    requires Refines(q, arrivals)
    ensures TiesAtTop(q.units, w) <==> TiesAtTop(arrivals, w)
  {
    SortMembers(q.units, arrivals);
    assert WithWeight(q.units, w) == WithWeight(arrivals, w);
  }

  lemma WithoutSorts(list: seq<Unit>, arrivals: seq<Unit>, k: nat)
    requires IsStableSortOf(list, arrivals) && UniqueAnchorages(list) && k < |list|
    ensures IsStableSortOf(RemoveAt(list, k), Without(arrivals, list[k].anchorage))
  {
    var a := list[k].anchorage;
    RemoveIsWithout(list, k);
    forall w: uint32 ensures WithWeight(RemoveAt(list, k), w) == WithWeight(Without(arrivals, a), w) {
      WithoutCommutes(list, a, w);
      WithoutCommutes(arrivals, a, w);
      assert WithWeight(list, w) == WithWeight(arrivals, w);
    }
  }

  lemma CancelRefines(q: QState, arrivals: seq<Unit>, a: uint32)
    requires Refines(q, arrivals)
    ensures Refines(Subtracted(q, a).0, ReferenceStep(arrivals, Cancel(a)).0)
    ensures Subtracted(q, a).1 == ReferenceStep(arrivals, Cancel(a)).1
  {
    SubtractedWellFormed(q, a);
    SameAnchorages(q, arrivals, a);
    if IsWaiting(q.units, a) {
      WithoutSorts(q.units, arrivals, IndexOf(q.units, a));
      WithoutKeepsUnique(arrivals, a);
    }
  }

  // A request of a waiting viewer leaves the viewer where the new data belongs.
  ghost predicate InPlace(list: seq<Unit>, arrivals: seq<Unit>, op: Op) {
    op.QueueUp? && IsWaiting(list, op.anchorage) ==>
      FitsAt(list, arrivals, IndexOf(list, op.anchorage), Unit(op.anchorage, op.data))
  }

  lemma RefinesIsSameUnits(q: QState, arrivals: seq<Unit>)
    requires Refines(q, arrivals)
    ensures SameUnits(q.units, arrivals)
  {
    SortMembers(q.units, arrivals);
  }

  lemma UpdateRefinesIff(q: QState, arrivals: seq<Unit>, a: uint32, d: UnitData)
    requires Refines(q, arrivals) && IsWaiting(q.units, a)
    ensures IsWaiting(arrivals, a)
    ensures Refines(AppendUpdated(q, a, d).0, Redata(arrivals, a, d)) <==> InPlace(q.units, arrivals, QueueUp(a, d))
  {
    AppendUpdatedWellFormed(q, a, d);
    RefinesIsSameUnits(q, arrivals);
    UpdatedUnits(q.units, arrivals, a, d);
    UpdateKeepsSortIff(q.units, arrivals, a, d);
  }

  lemma ArrivalRefines(q: QState, arrivals: seq<Unit>, a: uint32, d: UnitData)
    requires Refines(q, arrivals) && !IsWaiting(q.units, a)
    ensures Refines(AppendUpdated(q, a, d).0, ReferenceStep(arrivals, QueueUp(a, d)).0)
    ensures AppendUpdated(q, a, d).1 == ReferenceStep(arrivals, QueueUp(a, d)).1
  {
    AppendUpdatedWellFormed(q, a, d);
    SameAnchorages(q, arrivals, a);
    TieTransfers(q, arrivals, d.weight);
    InsertionIsStable(q, d.weight);
    if InsertPos(q, d.weight).Some? {
      InsertKeepsStableSort(q.units, arrivals, InsertPos(q, d.weight).value, Unit(a, d));
      assert InsertAt(arrivals, |arrivals|, Unit(a, d)) == arrivals + [Unit(a, d)];
      InsertUnit(arrivals, |arrivals|, Unit(a, d));
    }
  }

  // One request, as written, does to the list what the reference does to the
  // arrivals exactly when it leaves a waiting viewer in place; it returns the
  // reference's code in any case.
  lemma StepRefinesIff(q: QState, arrivals: seq<Unit>, op: Op)
    requires Refines(q, arrivals)
    ensures Refines(Step(q, op).0, ReferenceStep(arrivals, op).0) <==> InPlace(q.units, arrivals, op)
    ensures Step(q, op).1 == ReferenceStep(arrivals, op).1
  {
    SameAnchorages(q, arrivals, op.anchorage);
    match op
    case Cancel(a) => CancelRefines(q, arrivals, a);
    case QueueUp(a, d) =>
      if IsWaiting(q.units, a) {
        UpdateRefinesIff(q, arrivals, a, d);
      } else {
        ArrivalRefines(q, arrivals, a, d);
      }
  }

  function Run(q: QState, ops: seq<Op>): (r: (QState, seq<Errno>))
    requires WellFormed(q)
    ensures WellFormed(r.0)
    decreases |ops|
  {
    if ops == [] then (q, [])
    else
      StepWellFormed(q, ops[0]);
      var (q', e) := Step(q, ops[0]);
      var (r, es) := Run(q', ops[1..]);
      (r, [e] + es)
  }

  ghost function ReferenceRun(arrivals: seq<Unit>, ops: seq<Op>): (seq<Unit>, seq<Errno>)
    decreases |ops|
  {
    if ops == [] then (arrivals, [])
    else
      var (arrivals', e) := ReferenceStep(arrivals, ops[0]);
      var (r, es) := ReferenceRun(arrivals', ops[1..]);
      (r, [e] + es)
  }

  // Every request of the run leaves a waiting viewer in place.
  ghost predicate StaysInPlace(q: QState, arrivals: seq<Unit>, ops: seq<Op>)
    requires WellFormed(q)
    decreases |ops|
  {
    ops != [] ==>
      && InPlace(q.units, arrivals, ops[0])
      && (StepWellFormed(q, ops[0]); StaysInPlace(Step(q, ops[0]).0, ReferenceStep(arrivals, ops[0]).0, ops[1..]))
  }

  lemma {:induction false} RunRefines(q: QState, arrivals: seq<Unit>, ops: seq<Op>)
    requires Refines(q, arrivals) && StaysInPlace(q, arrivals, ops)
    ensures Refines(Run(q, ops).0, ReferenceRun(arrivals, ops).0)
    ensures Run(q, ops).1 == ReferenceRun(arrivals, ops).1
    decreases |ops|
  {
    if ops != [] {
      StepRefinesIff(q, arrivals, ops[0]);
      RunRefines(Step(q, ops[0]).0, ReferenceStep(arrivals, ops[0]).0, ops[1..]);
    }
  }

  // The list is the stable sort of the arrivals before and after every request
  // of the run.
  ghost predicate AlwaysSorted(q: QState, arrivals: seq<Unit>, ops: seq<Op>)
    decreases |ops|
  {
    && Refines(q, arrivals)
    && (ops != [] ==> AlwaysSorted(Step(q, ops[0]).0, ReferenceStep(arrivals, ops[0]).0, ops[1..]))
  }

  lemma {:induction false} RunStaysSortedIff(q: QState, arrivals: seq<Unit>, ops: seq<Op>)
    requires Refines(q, arrivals)
    ensures AlwaysSorted(q, arrivals, ops) <==> StaysInPlace(q, arrivals, ops)
    decreases |ops|
  {
    if ops != [] {
      StepRefinesIff(q, arrivals, ops[0]);
      if InPlace(q.units, arrivals, ops[0]) {
        RunStaysSortedIff(Step(q, ops[0]).0, ReferenceStep(arrivals, ops[0]).0, ops[1..]);
      }
    }
  }

  // From the empty list: throughout a run the list is the stable sort of the
  // admitted viewers still waiting exactly when every waiting viewer who asks
  // again still fits where they stand. Then a request fails exactly when the
  // reference says so.
  lemma ListIsStableSort(ops: seq<Op>)
    ensures AlwaysSorted(EMPTY, [], ops) <==> StaysInPlace(EMPTY, [], ops)
    ensures StaysInPlace(EMPTY, [], ops) ==>
              && IsStableSortOf(Run(EMPTY, ops).0.units, ReferenceRun([], ops).0)
              && Run(EMPTY, ops).1 == ReferenceRun([], ops).1
  {
    RunStaysSortedIff(EMPTY, [], ops);
    if StaysInPlace(EMPTY, [], ops) {
      RunRefines(EMPTY, [], ops);
    }
  }

  // ----- Unchanged weights are enough -----

  // A waiting viewer who asks again does so with an unchanged weight.
  ghost predicate KeepsWeight(arrivals: seq<Unit>, op: Op) {
    op.QueueUp? ==> forall u :: u in arrivals && u.anchorage == op.anchorage ==> u.Weight() == op.data.weight
  }

  ghost predicate WeightsKept(arrivals: seq<Unit>, ops: seq<Op>)
    decreases |ops|
  {
    ops != [] ==>
      && KeepsWeight(arrivals, ops[0])
      && WeightsKept(ReferenceStep(arrivals, ops[0]).0, ops[1..])
  }

  lemma KeptWeightIsInPlace(q: QState, arrivals: seq<Unit>, op: Op)
    requires Refines(q, arrivals) && KeepsWeight(arrivals, op)
    ensures InPlace(q.units, arrivals, op)
  {
    if op.QueueUp? && IsWaiting(q.units, op.anchorage) {
      RefinesIsSameUnits(q, arrivals);
      SortIsRanked(q.units, arrivals);
      assert q.units[IndexOf(q.units, op.anchorage)] in arrivals;
    }
  }

  lemma {:induction false} KeptWeightsStayInPlace(q: QState, arrivals: seq<Unit>, ops: seq<Op>)
    requires Refines(q, arrivals) && WeightsKept(arrivals, ops)
    ensures StaysInPlace(q, arrivals, ops)
    decreases |ops|
  {
    if ops != [] {
      KeptWeightIsInPlace(q, arrivals, ops[0]);
      StepRefinesIff(q, arrivals, ops[0]);
      KeptWeightsStayInPlace(Step(q, ops[0]).0, ReferenceStep(arrivals, ops[0]).0, ops[1..]);
    }
  }

  // ----- Who is turned away, on any list -----

  // No request of an absent viewer meets the condition of RejectedIff.
  ghost predicate NobodyTurnedAway(q: QState, ops: seq<Op>)
    requires WellFormed(q)
    decreases |ops|
  {
    ops != [] ==>
      && (ops[0].QueueUp? && !IsWaiting(q.units, ops[0].anchorage) ==> !Rejects(q, ops[0].data.weight))
      && (StepWellFormed(q, ops[0]); NobodyTurnedAway(Step(q, ops[0]).0, ops[1..]))
  }

  lemma StepRejectsIff(q: QState, op: Op)
    requires WellFormed(q)
    ensures Step(q, op).1 == ErrUnknown <==>
            op.QueueUp? && !IsWaiting(q.units, op.anchorage) && Rejects(q, op.data.weight)
  {
    if op.QueueUp? {
      RejectedIff(q, op.data.weight);
    }
  }

  // Whatever weights change: no request of a run is rejected exactly when none
  // of an absent viewer meets the condition.
  lemma {:induction false} NobodyTurnedAwayIff(q: QState, ops: seq<Op>)
    requires WellFormed(q)
    ensures ErrUnknown !in Run(q, ops).1 <==> NobodyTurnedAway(q, ops)
    decreases |ops|
  {
    if ops != [] {
      StepWellFormed(q, ops[0]);
      StepRejectsIff(q, ops[0]);
      NobodyTurnedAwayIff(Step(q, ops[0]).0, ops[1..]);
    }
  }

  // ----- Without any assumption on weights -----

  // No request reorders two viewers who wait before and after it, whether the
  // list is sorted or not.
  lemma StepKeepsOrder(q: QState, op: Op, a: uint32, b: uint32)
    requires WellFormed(q)
    requires IsWaiting(q.units, a) && IsWaiting(q.units, b)
    requires IsWaiting(Step(q, op).0.units, a) && IsWaiting(Step(q, op).0.units, b)
    ensures Before(Step(q, op).0.units, a, b) <==> Before(q.units, a, b)
  {
    var us := q.units;
    var k := IndexOf(us, op.anchorage);
    if op.Cancel? {
      if k < |us| {
        SubtractedWellFormed(q, op.anchorage);
        IndexAfterRemove(us, k, a);
        IndexAfterRemove(us, k, b);
      }
    } else if k < |us| {
      IndexAfterUpdate(us, k, Unit(op.anchorage, op.data), a);
      IndexAfterUpdate(us, k, Unit(op.anchorage, op.data), b);
    } else if InsertPos(q, op.data.weight).Some? {
      var p := InsertPos(q, op.data.weight).value;
      IndexAfterInsert(us, p, Unit(op.anchorage, op.data), a);
      IndexAfterInsert(us, p, Unit(op.anchorage, op.data), b);
    }
  }

  ghost predicate WaitsThroughout(q: QState, ops: seq<Op>, a: uint32)
    requires WellFormed(q)
    decreases |ops|
  {
    && IsWaiting(q.units, a)
    && (ops != [] ==> (StepWellFormed(q, ops[0]); WaitsThroughout(Step(q, ops[0]).0, ops[1..], a)))
  }

  lemma {:induction false} RunKeepsOrder(q: QState, ops: seq<Op>, a: uint32, b: uint32)
    requires WellFormed(q)
    requires WaitsThroughout(q, ops, a) && WaitsThroughout(q, ops, b)
    ensures Before(Run(q, ops).0.units, a, b) <==> Before(q.units, a, b)
    decreases |ops|
  {
    if ops != [] {
      StepWellFormed(q, ops[0]);
      StepKeepsOrder(q, ops[0], a, b);
      RunKeepsOrder(Step(q, ops[0]).0, ops[1..], a, b);
    }
  }

  // ----- Where the code as written falls short -----

  function Plain(w: uint32): UnitData {
    UnitData(w, "", 0, 0, false, false, false, 0, "")
  }

  // A second viewer as heavy as a lone heaviest one is turned away.
  lemma SecondGovernorIsRejected()
    ensures Run(EMPTY, [QueueUp(1, Plain(5)), QueueUp(2, Plain(3)), QueueUp(3, Plain(5))]).1 == [Ok, Ok, ErrUnknown]
  {
    var ops := [QueueUp(1, Plain(5)), QueueUp(2, Plain(3)), QueueUp(3, Plain(5))];
    var u1, u2 := Unit(1, Plain(5)), Unit(2, Plain(3));
    var q1 := QState([u1], None);
    var q2 := QState([u1, u2], None);
    assert InsertAt([], 0, u1) == [u1] && InsertAt([u1], 1, u2) == [u1, u2];
    assert Step(EMPTY, ops[0]) == (q1, Ok);
    assert Step(q1, ops[1]) == (q2, Ok);
    assert Step(q2, ops[2]) == (q2, ErrUnknown);
    assert ops[1..][1..] == [ops[2]];
    assert Run(q2, [ops[2]]).1 == [ErrUnknown];
  }

  // Viewer 2 waits, viewer 1 overtakes, and viewer 2 asks again as heavy as
  // viewer 1: the list stays sorted by weight, with the earlier arrival behind.
  const PROMOTION := [QueueUp(2, Plain(3)), QueueUp(1, Plain(5)), QueueUp(2, Plain(5))]

  lemma PromotedViewerStaysBehind()
    ensures Run(EMPTY, PROMOTION).0.units == [Unit(1, Plain(5)), Unit(2, Plain(5))]
  {
    var ops := PROMOTION;
    var u1, u2, v2 := Unit(1, Plain(5)), Unit(2, Plain(3)), Unit(2, Plain(5));
    var q1, q2 := QState([u2], None), QState([u1, u2], None);
    assert InsertAt([], 0, u2) == [u2] && InsertAt([u2], 0, u1) == [u1, u2];
    assert Step(EMPTY, ops[0]) == (q1, Ok);
    assert Step(q1, ops[1]) == (q2, Ok);
    assert Step(q2, ops[2]).0.units == [u1, v2];
    assert ops[1..][1..] == [ops[2]];
    assert Run(q2, [ops[2]]).0 == Step(q2, ops[2]).0;
  }

  lemma PromotedViewerCameFirst()
    ensures ReferenceRun([], PROMOTION).0 == [Unit(2, Plain(5)), Unit(1, Plain(5))]
  {
    var ops := PROMOTION;
    var u1, u2, v2 := Unit(1, Plain(5)), Unit(2, Plain(3)), Unit(2, Plain(5));
    TieFree([], 3);
    TieFree([u2], 5);
    assert ReferenceStep([], ops[0]).0 == [u2];
    assert ReferenceStep([u2], ops[1]).0 == [u2, u1];
    assert Redata([u2, u1], 2, Plain(5)) == [v2, u1];
    assert ReferenceStep([u2, u1], ops[2]).0 == [v2, u1];
    assert ops[1..][1..] == [ops[2]] && [ops[2]][1..] == [];
    assert ReferenceRun([u2, u1], [ops[2]]).0 == [v2, u1];
  }

  lemma TieFree(us: seq<Unit>, w: uint32)
    requires forall u :: u in us ==> u.Weight() < w
    ensures !TiesAtTop(us, w)
  {
    NoneOfWeight(us, w);
  }

  ghost predicate LeadsTo(q: QState, ops: seq<Op>, q': QState) {
    WellFormed(q) && Run(q, ops).0 == q'
  }

  lemma LeadsOn(q: QState, op: Op, q1: QState, ops: seq<Op>, q2: QState)
    requires WellFormed(q) && Step(q, op) == (q1, Ok) && LeadsTo(q1, ops, q2)
    ensures LeadsTo(q, [op] + ops, q2)
  {
    assert ([op] + ops)[0] == op && ([op] + ops)[1..] == ops;
  }

  function At(a: uint32, w: uint32): Unit {
    Unit(a, Plain(w))
  }

  // A newcomer no heavier than the last unit queues behind it.
  lemma QueuesBehind(q: QState, a: uint32, w: uint32)
    requires WellFormed(q) && !IsWaiting(q.units, a)
    requires q.units != [] && q.units[0].Weight() >= w && q.units[|q.units| - 1].Weight() >= w
    ensures Step(q, QueueUp(a, Plain(w))) == (q.(units := q.units + [At(a, w)]), Ok)
    ensures WellFormed(q.(units := q.units + [At(a, w)]))
  {
    assert InsertAt(q.units, |q.units|, At(a, w)) == q.units + [At(a, w)];
    StepWellFormed(q, QueueUp(a, Plain(w)));
  }

  // Viewers 1 to 4 queue, viewer 3 grows heavy and viewer 2 light: the list is
  // out of order, and viewer 2 is cached.
  const FOUR := QState([At(1, 5), At(2, 4), At(3, 3), At(4, 2)], None)
  const UNSORTED := QState([At(1, 5), At(2, 1), At(3, 9), At(4, 2)], Some(2))

  lemma FourLeadToUnsorted() returns (ops: seq<Op>)
    ensures LeadsTo(FOUR, ops, UNSORTED)
  {
    var q5 := QState([At(1, 5), At(2, 4), At(3, 9), At(4, 2)], Some(3));
    assert IndexOf(FOUR.units, 3) == 2 && IndexOf(q5.units, 2) == 1;
    assert FOUR.units[2 := At(3, 9)] == q5.units && q5.units[1 := At(2, 1)] == UNSORTED.units;
    StepWellFormed(FOUR, QueueUp(3, Plain(9)));
    StepWellFormed(q5, QueueUp(2, Plain(1)));
    LeadsOn(q5, QueueUp(2, Plain(1)), UNSORTED, [], UNSORTED);
    ops := [QueueUp(2, Plain(1))];
    assert [QueueUp(2, Plain(1))] + [] == ops;
    LeadsOn(FOUR, QueueUp(3, Plain(9)), q5, ops, UNSORTED);
    ops := [QueueUp(3, Plain(9))] + ops;
  }

  lemma FourQueue(rest: seq<Op>) returns (ops: seq<Op>)
    requires LeadsTo(FOUR, rest, UNSORTED)
    ensures LeadsTo(EMPTY, ops, UNSORTED)
  {
    var q1, q2 := QState([At(1, 5)], None), QState([At(1, 5), At(2, 4)], None);
    var q3 := QState([At(1, 5), At(2, 4), At(3, 3)], None);
    assert InsertAt([], 0, At(1, 5)) == [At(1, 5)];
    assert Step(EMPTY, QueueUp(1, Plain(5))) == (q1, Ok);
    QueuesBehind(q1, 2, 4);
    assert q1.units + [At(2, 4)] == q2.units;
    QueuesBehind(q2, 3, 3);
    assert q2.units + [At(3, 3)] == q3.units;
    QueuesBehind(q3, 4, 2);
    assert q3.units + [At(4, 2)] == FOUR.units;
    ops := [QueueUp(4, Plain(2))] + rest;
    LeadsOn(q3, QueueUp(4, Plain(2)), FOUR, rest, UNSORTED);
    LeadsOn(q2, QueueUp(3, Plain(3)), q3, ops, UNSORTED);
    ops := [QueueUp(3, Plain(3))] + ops;
    LeadsOn(q1, QueueUp(2, Plain(4)), q2, ops, UNSORTED);
    ops := [QueueUp(2, Plain(4))] + ops;
    LeadsOn(EMPTY, QueueUp(1, Plain(5)), q1, ops, UNSORTED);
    ops := [QueueUp(1, Plain(5))] + ops;
  }

  // A newcomer is turned away although somebody is heavier.
  lemma RejectedBelowTheHeaviest() returns (ops: seq<Op>)
    ensures LeadsTo(EMPTY, ops, UNSORTED)
    ensures Step(UNSORTED, QueueUp(5, Plain(5))) == (UNSORTED, ErrUnknown)
    ensures !TiesAtTop(UNSORTED.units, 5)
  {
    ops := FourLeadToUnsorted();
    ops := FourQueue(ops);
    UnsortedRejects();
  }

  lemma UnsortedRejects()
    ensures Step(UNSORTED, QueueUp(5, Plain(5))) == (UNSORTED, ErrUnknown)
    ensures !TiesAtTop(UNSORTED.units, 5)
  {
    assert IndexOf(UNSORTED.units, 2) == 1;
    assert UNSORTED.units[2] in UNSORTED.units;
  }

  // A waiting viewer whose weight drops stays in front.
  lemma LighterViewerStaysInFront()
    ensures Run(EMPTY, [QueueUp(1, Plain(5)), QueueUp(2, Plain(3)), QueueUp(1, Plain(1))]).0.units
            == [Unit(1, Plain(1)), Unit(2, Plain(3))]
  {
    var ops := [QueueUp(1, Plain(5)), QueueUp(2, Plain(3)), QueueUp(1, Plain(1))];
    var u1, u2 := Unit(1, Plain(5)), Unit(2, Plain(3));
    var q1 := QState([u1], None);
    var q2 := QState([u1, u2], None);
    assert InsertAt([], 0, u1) == [u1] && InsertAt([u1], 1, u2) == [u1, u2];
    assert Step(EMPTY, ops[0]) == (q1, Ok);
    assert Step(q1, ops[1]) == (q2, Ok);
    assert Step(q2, ops[2]).0.units == [Unit(1, Plain(1)), u2];
    assert ops[1..][1..] == [ops[2]];
    assert Run(q2, [ops[2]]).0 == Step(q2, ops[2]).0;
  }
}
