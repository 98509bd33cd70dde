// The waiting list with `>=` in the last test of qlist_append: over every run
// nobody is rejected, and the list is the stable sort of everybody waiting.
module RepairedOrder {
  import opened Common
  import opened WaitingList
  import opened StableOrder
  import opened QueueRuns

  function AppendUpdatedRepaired(q: QState, a: uint32, d: UnitData): (QState, Errno)
    requires q.cache.Some? ==> IsWaiting(q.units, q.cache.value)
  {
    if IsWaiting(q.units, a) then AppendUpdated(q, a, d)
    else
      match InsertPosRepaired(q, d.weight)
      case Some(k) => (q.(units := InsertAt(q.units, k, Unit(a, d))), Ok)
      case None => (q, ErrUnknown)
  }

  function RepairedStep(q: QState, op: Op): (QState, Errno)
    requires q.cache.Some? ==> IsWaiting(q.units, q.cache.value)
  {
    match op
    case QueueUp(a, d) => AppendUpdatedRepaired(q, a, d)
    case Cancel(a) => Subtracted(q, a)
  }

  // Everybody waiting, in arrival order.
  ghost function ArrivalStep(arrivals: seq<Unit>, op: Op): seq<Unit> {
    match op
    case Cancel(a) => Without(arrivals, a)
    case QueueUp(a, d) =>
      if IsWaiting(arrivals, a) then Redata(arrivals, a, d) else arrivals + [Unit(a, d)]
  }

  ghost function ArrivalRun(arrivals: seq<Unit>, ops: seq<Op>): seq<Unit>
    decreases |ops|
  {
    if ops == [] then arrivals else ArrivalRun(ArrivalStep(arrivals, ops[0]), ops[1..])
  }

  lemma RepairedWellFormed(q: QState, op: Op)
    requires WellFormed(q)
    ensures WellFormed(RepairedStep(q, op).0)
  {
    if op.Cancel? || IsWaiting(q.units, op.anchorage) {
      StepWellFormed(q, op);
    } else if InsertPosRepaired(q, op.data.weight).Some? {
      InsertUnit(q.units, InsertPosRepaired(q, op.data.weight).value, Unit(op.anchorage, op.data));
    }
  }

  function RepairedRun(q: QState, ops: seq<Op>): (r: (QState, seq<Errno>))
    requires WellFormed(q)
    ensures WellFormed(r.0)
    decreases |ops|
  {
    if ops == [] then (q, [])
    else
      RepairedWellFormed(q, ops[0]);
      var (q', e) := RepairedStep(q, ops[0]);
      var (r, es) := RepairedRun(q', ops[1..]);
      (r, [e] + es)
  }

  lemma RepairedArrivalRefines(q: QState, arrivals: seq<Unit>, a: uint32, d: UnitData)
    requires Refines(q, arrivals) && !IsWaiting(q.units, a)
    ensures !IsWaiting(arrivals, a) && AppendUpdatedRepaired(q, a, d).1 == Ok
    ensures Refines(AppendUpdatedRepaired(q, a, d).0, arrivals + [Unit(a, d)])
  {
    var u := Unit(a, d);
    RepairedWellFormed(q, QueueUp(a, d));
    SameAnchorages(q, arrivals, a);
    RepairedInsertionIsStable(q, d.weight);
    InsertKeepsStableSort(q.units, arrivals, InsertPosRepaired(q, d.weight).value, u);
    assert InsertAt(arrivals, |arrivals|, u) == arrivals + [u];
    InsertUnit(arrivals, |arrivals|, u);
  }

  lemma RepairedStepRefinesIff(q: QState, arrivals: seq<Unit>, op: Op)
    requires Refines(q, arrivals)
    ensures Refines(RepairedStep(q, op).0, ArrivalStep(arrivals, op)) <==> InPlace(q.units, arrivals, op)
    ensures RepairedStep(q, op).1 == if op.Cancel? && !IsWaiting(arrivals, op.anchorage) then ErrResource else Ok
  {
    SameAnchorages(q, arrivals, op.anchorage);
    match op
    case Cancel(a) =>
      CancelRefines(q, arrivals, a);
      if !IsWaiting(arrivals, a) {
        WithoutAbsent(arrivals, a);
      }
    case QueueUp(a, d) =>
      if IsWaiting(q.units, a) {
        UpdateRefinesIff(q, arrivals, a, d);
      } else {
        RepairedArrivalRefines(q, arrivals, a, d);
      }
  }

  // Every request of the run leaves a waiting viewer in place.
  ghost predicate RepairedInPlace(q: QState, arrivals: seq<Unit>, ops: seq<Op>)
    requires WellFormed(q)
    decreases |ops|
  {
    ops != [] ==>
      && InPlace(q.units, arrivals, ops[0])
      && (RepairedWellFormed(q, ops[0]);
          RepairedInPlace(RepairedStep(q, ops[0]).0, ArrivalStep(arrivals, ops[0]), ops[1..]))
  }

  lemma {:induction false} RepairedRunRefines(q: QState, arrivals: seq<Unit>, ops: seq<Op>)
    requires Refines(q, arrivals) && RepairedInPlace(q, arrivals, ops)
    ensures Refines(RepairedRun(q, ops).0, ArrivalRun(arrivals, ops))
    ensures ErrUnknown !in RepairedRun(q, ops).1
    decreases |ops|
  {
    if ops != [] {
      RepairedStepRefinesIff(q, arrivals, ops[0]);
      RepairedRunRefines(RepairedStep(q, ops[0]).0, ArrivalStep(arrivals, ops[0]), ops[1..]);
    }
  }

  ghost predicate RepairedAlwaysSorted(q: QState, arrivals: seq<Unit>, ops: seq<Op>)
    decreases |ops|
  {
    && Refines(q, arrivals)
    && (ops != [] ==> RepairedAlwaysSorted(RepairedStep(q, ops[0]).0, ArrivalStep(arrivals, ops[0]), ops[1..]))
  }

  lemma {:induction false} RepairedStaysSortedIff(q: QState, arrivals: seq<Unit>, ops: seq<Op>)
    requires Refines(q, arrivals)
    ensures RepairedAlwaysSorted(q, arrivals, ops) <==> RepairedInPlace(q, arrivals, ops)
    decreases |ops|
  {
    if ops != [] {
      RepairedStepRefinesIff(q, arrivals, ops[0]);
      if InPlace(q.units, arrivals, ops[0]) {
        RepairedStaysSortedIff(RepairedStep(q, ops[0]).0, ArrivalStep(arrivals, ops[0]), ops[1..]);
      }
    }
  }

  // With the repair the list is, throughout a run, the stable sort of every
  // viewer still waiting exactly when every waiting viewer who asks again still
  // fits where they stand; then no request is turned away.
  lemma RepairedListIsStableSort(ops: seq<Op>)
    ensures RepairedAlwaysSorted(EMPTY, [], ops) <==> RepairedInPlace(EMPTY, [], ops)
    ensures RepairedInPlace(EMPTY, [], ops) ==>
              && IsStableSortOf(RepairedRun(EMPTY, ops).0.units, ArrivalRun([], ops))
              && ErrUnknown !in RepairedRun(EMPTY, ops).1
  {
    RepairedStaysSortedIff(EMPTY, [], ops);
    if RepairedInPlace(EMPTY, [], ops) {
      RepairedRunRefines(EMPTY, [], ops);
    }
  }

  lemma WithoutIfAbsent(us: seq<Unit>, a: uint32)
    ensures !IsWaiting(us, a) ==> Without(us, a) == us
  {
    if !IsWaiting(us, a) {
      WithoutAbsent(us, a);
    }
  }

  // ----- On any list, whatever weights change -----

  // The repaired code rejects nobody, and an insertion that the code as written
  // accepts goes where the repaired code puts it.
  lemma RepairedAccepts(q: QState, op: Op)
    requires WellFormed(q)
    ensures RepairedStep(q, op).1 != ErrUnknown
    ensures Step(q, op).1 != ErrUnknown ==> Step(q, op) == RepairedStep(q, op)
  {
    if op.QueueUp? {
      RepairedInserts(q, op.data.weight);
    }
  }

  lemma {:induction false} RepairedRejectsNobody(q: QState, ops: seq<Op>)
    requires WellFormed(q)
    ensures ErrUnknown !in RepairedRun(q, ops).1
    decreases |ops|
  {
    if ops != [] {
      RepairedWellFormed(q, ops[0]);
      RepairedAccepts(q, ops[0]);
      RepairedRejectsNobody(RepairedStep(q, ops[0]).0, ops[1..]);
    }
  }

  lemma {:induction false} AcceptedRunIsRepaired(q: QState, ops: seq<Op>)
    requires WellFormed(q)
    ensures ErrUnknown !in Run(q, ops).1 ==> Run(q, ops) == RepairedRun(q, ops)
    decreases |ops|
  {
    if ops != [] {
      StepWellFormed(q, ops[0]);
      RepairedWellFormed(q, ops[0]);
      RepairedAccepts(q, ops[0]);
      AcceptedRunIsRepaired(Step(q, ops[0]).0, ops[1..]);
    }
  }

  // A run of the code as written is a run of the repaired code exactly when
  // nobody is rejected in it.
  lemma SameUnlessRejected(q: QState, ops: seq<Op>)
    requires WellFormed(q)
    ensures ErrUnknown !in Run(q, ops).1 <==> Run(q, ops) == RepairedRun(q, ops)
  {
    AcceptedRunIsRepaired(q, ops);
    RepairedRejectsNobody(q, ops);
  }

  // If it also leaves waiting viewers in place, so does the repaired code.
  lemma {:induction false} AcceptedStaysInPlace(q: QState, arrivals: seq<Unit>, ops: seq<Op>)
    requires Refines(q, arrivals) && StaysInPlace(q, arrivals, ops) && ErrUnknown !in Run(q, ops).1
    ensures RepairedInPlace(q, arrivals, ops)
    decreases |ops|
  {
    if ops != [] {
      var op := ops[0];
      StepWellFormed(q, op);
      StepRefinesIff(q, arrivals, op);
      RepairedAccepts(q, op);
      SameAnchorages(q, arrivals, op.anchorage);
      WithoutIfAbsent(arrivals, op.anchorage);
      AcceptedStaysInPlace(Step(q, op).0, ReferenceStep(arrivals, op).0, ops[1..]);
    }
  }
}
