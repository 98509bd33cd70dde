// What qlist.c computes, as functions on the units in forward order and the
// anchorage held by the one-entry cache `tmp_unit`.
module WaitingList {
  import opened Common

  datatype UnitData = UnitData(
    weight: uint32,
    name: string,
    uid: uint32,
    fleetLv: uint32,
    cancel: bool,
    manager: bool,
    fansOfThisRoom: bool,
    fansLevel: uint32,
    fansName: string)

  datatype Unit = Unit(anchorage: uint32, data: UnitData) {
    function Weight(): uint32 { data.weight }
  }

  datatype QState = QState(units: seq<Unit>, cache: Option<uint32>)

  const EMPTY := QState([], None)

  // ----- The operations -----

  function IndexOf(us: seq<Unit>, a: uint32): (i: nat)
    ensures i <= |us|
    ensures i < |us| ==> us[i].anchorage == a
    ensures forall j :: 0 <= j < i ==> us[j].anchorage != a
  {
    if us == [] || us[0].anchorage == a then 0 else 1 + IndexOf(us[1..], a)
  }

  predicate IsWaiting(us: seq<Unit>, a: uint32) {
    IndexOf(us, a) < |us|
  }

  ghost predicate UniqueAnchorages(us: seq<Unit>) {
    forall i, j :: 0 <= i < j < |us| ==> us[i].anchorage != us[j].anchorage
  }

  ghost predicate WellFormed(q: QState) {
    && UniqueAnchorages(q.units)
    && (q.cache.Some? ==> IsWaiting(q.units, q.cache.value))
  }

  // The state qlist_search leaves behind.
  function Searched(q: QState, a: uint32): QState {
    if IsWaiting(q.units, a) then q.(cache := Some(a)) else q
  }

  // The unit at which the scan stops, walking towards the front from `begin`.
  function ScanDown(us: seq<Unit>, begin: nat, end: nat, w: uint32): (j: nat)
    requires end <= begin < |us|
    ensures end <= j <= begin
    ensures forall i :: j < i <= begin ==> us[i].Weight() < w
    ensures j > end ==> us[j].Weight() >= w
  {
    if begin == end || us[begin].Weight() >= w then begin else ScanDown(us, begin - 1, end, w)
  }

  // The scanned range, first unit to last: the cached unit replaces one bound.
  function ScanBounds(q: QState, w: uint32): (r: (nat, nat))
    requires q.units != [] && (q.cache.Some? ==> IsWaiting(q.units, q.cache.value))
    ensures r.1 <= r.0 < |q.units|
  {
    var n := |q.units|;
    if q.cache.None? then (n - 1, 0)
    else
      var t := IndexOf(q.units, q.cache.value);
      if q.units[t].Weight() > w then (n - 1, t)
      else if q.units[t].Weight() < w then (t, 0)
      else (n - 1, 0)
  }

  // What the scan of the chosen range decides: the unit it stops at takes the
  // new one behind it, unless the scan ran to the end of the range and the
  // last, strict test fails.
  function PosFromScan(us: seq<Unit>, begin: nat, end: nat, w: uint32): (r: Option<nat>)
    requires end <= begin < |us|
    ensures r.Some? ==> r.value <= |us|
  {
    var j := ScanDown(us, begin, end, w);
    if j > end || us[end].Weight() > w then Some(j + 1) else None
  }

  // Where qlist_append puts a new unit of weight `w`; None is its error return.
  function InsertPos(q: QState, w: uint32): (r: Option<nat>)
    requires q.cache.Some? ==> IsWaiting(q.units, q.cache.value)
    ensures r.Some? ==> r.value <= |q.units|
  {
    var us := q.units;
    if us == [] || us[0].Weight() < w then Some(0)
    else if us[|us| - 1].Weight() >= w then Some(|us|)
    else
      PosFromScan(us, ScanBounds(q, w).0, ScanBounds(q, w).1, w)
  }

  // The same with `>=` in the last test.
  function InsertPosRepaired(q: QState, w: uint32): (r: Option<nat>)
    requires q.cache.Some? ==> IsWaiting(q.units, q.cache.value)
    ensures r.Some? ==> r.value <= |q.units|
  {
    var us := q.units;
    if us == [] || us[0].Weight() < w then Some(0)
    else if us[|us| - 1].Weight() >= w then Some(|us|)
    else
      var j := ScanDown(us, ScanBounds(q, w).0, ScanBounds(q, w).1, w);
      if us[j].Weight() >= w then Some(j + 1) else None
  }

  // qlist_append_update
  function AppendUpdated(q: QState, a: uint32, d: UnitData): (QState, Errno)
    requires q.cache.Some? ==> IsWaiting(q.units, q.cache.value)
  {
    var i := IndexOf(q.units, a);
    if i < |q.units| then
      (QState(q.units[i := Unit(a, d)], Some(a)), Ok)
    else
      match InsertPos(q, d.weight)
      case Some(k) => (q.(units := InsertAt(q.units, k, Unit(a, d))), Ok)
      case None => (q, ErrUnknown)
  }

  // qlist_subtract
  function Subtracted(q: QState, a: uint32): (QState, Errno) {
    var i := IndexOf(q.units, a);
    if i < |q.units| then (QState(RemoveAt(q.units, i), None), Ok) else (q, ErrResource)
  }

  // The units qlist_foreach hands to its callback: all of them, or those up to
  // and including the first on which the callback returns False.
  function VisitedFrom(us: seq<Unit>, wants: Unit -> bool): seq<Unit> {
    if us == [] then []
    else if !wants(us[0]) then [us[0]]
    else [us[0]] + VisitedFrom(us[1..], wants)
  }

  function Reversed(us: seq<Unit>): (r: seq<Unit>)
    ensures |r| == |us|
    ensures forall i :: 0 <= i < |us| ==> r[i] == us[|us| - 1 - i]
  {
    if us == [] then [] else [us[|us| - 1]] + Reversed(us[..|us| - 1])
  }

  // The order of a traversal: front to back, or back to front when inverted.
  function InOrder(us: seq<Unit>, invertSeq: bool): (r: seq<Unit>)
    ensures |r| == |us|
    ensures forall i :: 0 <= i < |us| ==> r[i] == us[if invertSeq then |us| - 1 - i else i]
  {
    if invertSeq then Reversed(us) else us
  }

  lemma {:induction false} VisitedAre(us: seq<Unit>, wants: Unit -> bool, n: nat)
    requires n <= |us| && forall i :: 0 <= i < n ==> wants(us[i])
    ensures n == |us| ==> VisitedFrom(us, wants) == us
    ensures n < |us| && !wants(us[n]) ==> VisitedFrom(us, wants) == us[..n + 1]
  {
    if n != 0 {
      VisitedAre(us[1..], wants, n - 1);
      assert n < |us| ==> us[..n + 1] == [us[0]] + us[1..][..n];
    }
  }

  // A traversal calls back on a prefix, and stops short of the end only after
  // a refusal.
  lemma {:induction false} VisitedIsPrefix(us: seq<Unit>, wants: Unit -> bool)
    ensures VisitedFrom(us, wants) <= us
    ensures forall i :: 0 <= i < |VisitedFrom(us, wants)| - 1 ==> wants(us[i])
    ensures |VisitedFrom(us, wants)| < |us| ==>
              VisitedFrom(us, wants) != [] && !wants(us[|VisitedFrom(us, wants)| - 1])
  {
    if us != [] && wants(us[0]) {
      VisitedIsPrefix(us[1..], wants);
    }
  }

  // ----- Anchorages stay unique and the cache stays on the list -----

  lemma IndexOfUnique(us: seq<Unit>, k: nat)
    requires UniqueAnchorages(us) && k < |us|
    ensures IndexOf(us, us[k].anchorage) == k
  {
  }

  lemma MemberIsWaiting(us: seq<Unit>, a: uint32)
    ensures IsWaiting(us, a) <==> exists i :: 0 <= i < |us| && us[i].anchorage == a
  {
  }

  lemma InsertUnit(us: seq<Unit>, k: nat, u: Unit)
    requires UniqueAnchorages(us) && k <= |us| && !IsWaiting(us, u.anchorage)
    ensures UniqueAnchorages(InsertAt(us, k, u))
    ensures forall b :: IsWaiting(InsertAt(us, k, u), b) <==> b == u.anchorage || IsWaiting(us, b)
  {
    var us' := InsertAt(us, k, u);
    assert forall j :: 0 <= j < k ==> us'[j] == us[j];
    assert us'[k] == u;
    assert forall j :: k <= j < |us| ==> us'[j + 1] == us[j];
    forall b ensures IsWaiting(us', b) <==> b == u.anchorage || IsWaiting(us, b) {
      var t := IndexOf(us, b);
      if t < |us| {
        assert us'[if t < k then t else t + 1].anchorage == b;
      }
    }
  }

  lemma UpdateUnit(us: seq<Unit>, i: nat, u: Unit)
    requires UniqueAnchorages(us) && i < |us| && us[i].anchorage == u.anchorage
    ensures UniqueAnchorages(us[i := u])
    ensures forall b :: IsWaiting(us[i := u], b) <==> IsWaiting(us, b)
  {
    forall b ensures IsWaiting(us[i := u], b) <==> IsWaiting(us, b) {
      assert forall j :: 0 <= j < |us| ==> us[i := u][j].anchorage == us[j].anchorage;
    }
  }

  lemma AppendUpdatedWellFormed(q: QState, a: uint32, d: UnitData)
    requires WellFormed(q)
    ensures WellFormed(AppendUpdated(q, a, d).0)
  {
    var i := IndexOf(q.units, a);
    if i < |q.units| {
      UpdateUnit(q.units, i, Unit(a, d));
      assert IsWaiting(q.units, a);
    } else if InsertPos(q, d.weight).Some? {
      InsertUnit(q.units, InsertPos(q, d.weight).value, Unit(a, d));
    }
  }

  lemma SubtractedWellFormed(q: QState, a: uint32)
    requires WellFormed(q)
    ensures WellFormed(Subtracted(q, a).0)
    ensures !IsWaiting(Subtracted(q, a).0.units, a)
  {
  }
}
