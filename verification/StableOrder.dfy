// The order the waiting list promises: heavier first, and first come first
// served among equals, over whole runs of queue and cancel requests.
module StableOrder {
  import opened Common
  import opened WaitingList

  // ----- Stable sorting, stated without any insertion procedure -----

  ghost predicate Sorted(us: seq<Unit>) {
    forall i, j :: 0 <= i < j < |us| ==> us[i].Weight() >= us[j].Weight()
  }

  function WithWeight(us: seq<Unit>, w: uint32): seq<Unit> {
    if us == [] then []
    else if us[0].Weight() == w then [us[0]] + WithWeight(us[1..], w)
    else WithWeight(us[1..], w)
  }

  // `list` has the units of `arrivals`, heavier first, equal weights in
  // arrival order.
  ghost predicate IsStableSortOf(list: seq<Unit>, arrivals: seq<Unit>) {
    && Sorted(list)
    && forall w: uint32 :: WithWeight(list, w) == WithWeight(arrivals, w)
  }

  lemma {:induction false} WithWeightConcat(s: seq<Unit>, t: seq<Unit>, w: uint32)
    ensures WithWeight(s + t, w) == WithWeight(s, w) + WithWeight(t, w)
  {
    if s == [] {
      assert s + t == t;
    } else {
      var rest := s[1..] + t;
      assert s + t == [s[0]] + rest;
      assert (s + t)[1..] == rest;
      WithWeightConcat(s[1..], t, w);
      if s[0].Weight() == w {
        assert WithWeight(s + t, w) == [s[0]] + WithWeight(rest, w);
      }
    }
  }

  lemma {:induction false} WithWeightMembers(us: seq<Unit>, w: uint32)
    ensures forall u :: u in WithWeight(us, w) <==> u in us && u.Weight() == w
  {
    if us != [] {
      WithWeightMembers(us[1..], w);
      assert us == [us[0]] + us[1..];
    }
  }

  lemma SortMembers(list: seq<Unit>, arrivals: seq<Unit>)
    requires IsStableSortOf(list, arrivals)
    ensures forall u :: u in list <==> u in arrivals
  {
    forall u ensures u in list <==> u in arrivals {
      WithWeightMembers(list, u.Weight());
      WithWeightMembers(arrivals, u.Weight());
      assert WithWeight(list, u.Weight()) == WithWeight(arrivals, u.Weight());
    }
  }

  lemma SubsetOfEmpty(s: seq<Unit>, t: seq<Unit>)
    requires forall u :: u in s ==> u in t
    ensures t == [] ==> s == []
  {
    if s != [] {
      assert s[0] in t;
    }
  }

  // There is only one stable sort.
  lemma {:induction false} StableSortIsUnique(l1: seq<Unit>, l2: seq<Unit>, arrivals: seq<Unit>)
    requires IsStableSortOf(l1, arrivals) && IsStableSortOf(l2, arrivals)
    ensures l1 == l2
  {
    SortMembers(l1, arrivals);
    SortMembers(l2, arrivals);
    if l1 == [] {
      SubsetOfEmpty(l2, l1);
    } else {
      assert l1[0] in l2;
      assert l2[0] in l1;
      var w := l1[0].Weight();
      assert l2[0].Weight() == w;
      assert WithWeight(l1, w)[0] == l1[0];
      assert WithWeight(l2, w)[0] == l2[0];
      assert WithWeight(l1, w) == WithWeight(l2, w);
      forall v: uint32 ensures WithWeight(l1[1..], v) == WithWeight(l2[1..], v) {
        var h := if v == w then [l1[0]] else [];
        assert WithWeight(l1, v) == h + WithWeight(l1[1..], v);
        assert WithWeight(l2, v) == h + WithWeight(l2[1..], v);
        assert WithWeight(l1[1..], v) == WithWeight(l1, v)[|h|..];
      }
      StableSortIsUnique(l1[1..], l2[1..], l1[1..]);
    }
  }

  // ----- Insertion -----

  // The new unit ties with a single heaviest unit and somebody is lighter:
  // the one case in which the strict test of qlist.c:121 rejects it.
  ghost predicate TiesAtTop(us: seq<Unit>, w: uint32) {
    && |WithWeight(us, w)| == 1
    && (forall u :: u in us ==> u.Weight() <= w)
    && (exists u :: u in us && u.Weight() < w)
  }

  // Where stable insertion puts weight `w`.
  ghost predicate IsStablePos(us: seq<Unit>, w: uint32, k: nat) {
    && k <= |us|
    && (forall i :: 0 <= i < k ==> us[i].Weight() >= w)
    && (forall i :: k <= i < |us| ==> us[i].Weight() < w)
  }

  lemma {:induction false} NoneOfWeight(us: seq<Unit>, w: uint32)
    requires forall i :: 0 <= i < |us| ==> us[i].Weight() != w
    ensures WithWeight(us, w) == []
  {
    if us != [] {
      NoneOfWeight(us[1..], w);
    }
  }

  lemma TiesAtTopWhenSorted(us: seq<Unit>, w: uint32)
    requires Sorted(us)
    ensures TiesAtTop(us, w) <==>
            |us| >= 2 && us[0].Weight() == w && forall i :: 1 <= i < |us| ==> us[i].Weight() < w
  {
    if |us| >= 2 && us[0].Weight() == w {
      var tail := us[1..];
      if us[1].Weight() < w {
        assert forall i :: 0 <= i < |tail| ==> tail[i].Weight() <= us[1].Weight();
        NoneOfWeight(tail, w);
        assert us[1] in us;
      } else {
        assert us[1] == tail[0];
        assert |WithWeight(us, w)| >= 2;
      }
    }
    if TiesAtTop(us, w) {
      WithWeightMembers(us, w);
      var u :| u in us && u.Weight() < w;
      assert WithWeight(us, w)[0] in us;
      assert us[0] in us;
    }
  }

  lemma StopIsStable(us: seq<Unit>, w: uint32, j: nat, begin: nat)
    requires Sorted(us) && j < begin < |us|
    requires us[j].Weight() >= w > us[begin].Weight()
    requires forall i :: j < i <= begin ==> us[i].Weight() < w
    ensures IsStablePos(us, w, j + 1)
  {
    forall i | 0 <= i < j + 1 ensures us[i].Weight() >= w {
      assert i < j ==> us[i].Weight() >= us[j].Weight();
    }
    forall i | j + 1 <= i < |us| ensures us[i].Weight() < w {
      assert i > begin ==> us[begin].Weight() >= us[i].Weight();
    }
  }

  // On a sorted list with a front at least as heavy as `w` and a lighter tail,
  // the place where the scan stops decides between insertion and rejection.
  lemma ScanSplits(q: QState, w: uint32)
    requires Sorted(q.units) && WellFormed(q) && q.units != []
    requires q.units[0].Weight() >= w > q.units[|q.units| - 1].Weight()
    ensures var (begin, end) := ScanBounds(q, w);
            var j := ScanDown(q.units, begin, end, w);
            && q.units[j].Weight() >= w
            && IsStablePos(q.units, w, j + 1)
            && (j == end && q.units[end].Weight() == w ==> j == 0)
  {
    var (begin, end) := ScanBounds(q, w);
    var j := ScanDown(q.units, begin, end, w);
    assert q.units[begin].Weight() < w;
    assert end != 0 ==> q.units[end].Weight() > w;
    StopIsStable(q.units, w, j, begin);
  }

  // The one case in which the strict test of qlist.c:121 rejects weight `w`, on
  // any list: it ties with the front unit, the last unit is lighter, the cached
  // unit is not heavier, and so is nobody else the scan passes.
  ghost predicate Rejects(q: QState, w: uint32)
    requires q.cache.Some? ==> IsWaiting(q.units, q.cache.value)
  {
    var us := q.units;
    && |us| >= 2 && us[0].Weight() == w > us[|us| - 1].Weight()
    && (q.cache.Some? ==> us[IndexOf(us, q.cache.value)].Weight() <= w)
    && forall i :: 0 < i <= ScanBounds(q, w).0 ==> us[i].Weight() < w
  }

  lemma RejectedIff(q: QState, w: uint32)
    requires WellFormed(q)
    ensures InsertPos(q, w).None? <==> Rejects(q, w)
  {
  }

  // On a sorted list the cache plays no part in it.
  lemma RejectsWhenSorted(q: QState, w: uint32)
    requires WellFormed(q) && Sorted(q.units)
    ensures Rejects(q, w) <==> TiesAtTop(q.units, w)
  {
    InsertionIsStable(q, w);
    RejectedIff(q, w);
  }

  // Whatever the cache holds, on a sorted list the code inserts exactly where
  // stable insertion does, or fails exactly in the TiesAtTop case.
  lemma InsertionIsStable(q: QState, w: uint32)
    requires Sorted(q.units) && WellFormed(q)
    ensures InsertPos(q, w).None? <==> TiesAtTop(q.units, w)
    ensures InsertPos(q, w).Some? ==> IsStablePos(q.units, w, InsertPos(q, w).value)
  {
    var us := q.units;
    TiesAtTopWhenSorted(us, w);
    if us != [] && us[0].Weight() >= w > us[|us| - 1].Weight() {
      ScanSplits(q, w);
    }
  }

  // With `>=` in the last test nobody is rejected, on any list, and whoever the
  // code as written accepts goes to the same place.
  lemma RepairedInserts(q: QState, w: uint32)
    requires WellFormed(q)
    ensures InsertPosRepaired(q, w).Some?
    ensures InsertPos(q, w).Some? ==> InsertPosRepaired(q, w) == InsertPos(q, w)
  {
  }

  lemma RepairedInsertionIsStable(q: QState, w: uint32)
    requires Sorted(q.units) && WellFormed(q)
    ensures InsertPosRepaired(q, w).Some?
    ensures IsStablePos(q.units, w, InsertPosRepaired(q, w).value)
  {
    var us := q.units;
    TiesAtTopWhenSorted(us, w);
    if us != [] && us[0].Weight() >= w > us[|us| - 1].Weight() {
      ScanSplits(q, w);
    }
  }

  lemma WithWeightInsert(us: seq<Unit>, k: nat, u: Unit, w: uint32)
    requires IsStablePos(us, u.Weight(), k)
    ensures WithWeight(InsertAt(us, k, u), w) == WithWeight(us + [u], w)
  {
    var s, t := us[..k], us[k..];
    assert us == s + t;
    assert InsertAt(us, k, u) == s + ([u] + t);
    assert us + [u] == s + (t + [u]);
    WithWeightConcat(s, [u] + t, w);
    WithWeightConcat(s, t + [u], w);
    WithWeightConcat([u], t, w);
    WithWeightConcat(t, [u], w);
    if w == u.Weight() {
      NoneOfWeight(t, w);
    } else {
      NoneOfWeight([u], w);
    }
  }

  lemma InsertKeepsStableSort(list: seq<Unit>, arrivals: seq<Unit>, k: nat, u: Unit)
    requires IsStableSortOf(list, arrivals)
    requires IsStablePos(list, u.Weight(), k)
    ensures IsStableSortOf(InsertAt(list, k, u), arrivals + [u])
  {
    var r := InsertAt(list, k, u);
    assert forall i :: 0 <= i < |r| ==> r[i] == if i < k then list[i] else if i == k then u else list[i - 1];
    forall w: uint32 ensures WithWeight(r, w) == WithWeight(arrivals + [u], w) {
      WithWeightInsert(list, k, u, w);
      WithWeightConcat(list, [u], w);
      WithWeightConcat(arrivals, [u], w);
      assert WithWeight(list, w) == WithWeight(arrivals, w);
    }
  }

  // ----- Update in place and removal, on lists with unique anchorages -----

  function Redata(us: seq<Unit>, a: uint32, d: UnitData): (r: seq<Unit>)
    ensures |r| == |us|
    ensures forall i :: 0 <= i < |us| ==> r[i] == if us[i].anchorage == a then Unit(a, d) else us[i]
  {
    seq(|us|, i requires 0 <= i < |us| => if us[i].anchorage == a then Unit(a, d) else us[i])
  }

  function Without(us: seq<Unit>, a: uint32): seq<Unit> {
    if us == [] then []
    else if us[0].anchorage == a then Without(us[1..], a)
    else [us[0]] + Without(us[1..], a)
  }

  lemma {:induction false} WithoutCommutes(us: seq<Unit>, a: uint32, w: uint32)
    ensures WithWeight(Without(us, a), w) == Without(WithWeight(us, w), a)
  {
    if us != [] {
      var u, rest := us[0], us[1..];
      WithoutCommutes(rest, a, w);
      if u.anchorage != a {
        assert ([u] + Without(rest, a))[1..] == Without(rest, a);
      }
      if u.Weight() == w {
        assert ([u] + WithWeight(rest, w))[1..] == WithWeight(rest, w);
      }
    }
  }

  lemma {:induction false} WithoutAbsent(us: seq<Unit>, a: uint32)
    requires forall i :: 0 <= i < |us| ==> us[i].anchorage != a
    ensures Without(us, a) == us
  {
    if us != [] {
      WithoutAbsent(us[1..], a);
    }
  }

  lemma {:induction false} RemoveIsWithout(us: seq<Unit>, k: nat)
    requires UniqueAnchorages(us) && k < |us|
    ensures RemoveAt(us, k) == Without(us, us[k].anchorage)
  {
    if k == 0 {
      WithoutAbsent(us[1..], us[0].anchorage);
    } else {
      RemoveIsWithout(us[1..], k - 1);
      assert RemoveAt(us, k) == [us[0]] + RemoveAt(us[1..], k - 1);
    }
  }

  lemma {:induction false} WithoutMembers(us: seq<Unit>, a: uint32)
    ensures forall u :: u in Without(us, a) <==> u in us && u.anchorage != a
  {
    if us != [] {
      WithoutMembers(us[1..], a);
      assert us == [us[0]] + us[1..];
    }
  }

  lemma {:induction false} WithoutKeepsUnique(us: seq<Unit>, a: uint32)
    requires UniqueAnchorages(us)
    ensures UniqueAnchorages(Without(us, a))
  {
    if us != [] {
      WithoutKeepsUnique(us[1..], a);
      WithoutMembers(us[1..], a);
      var r := Without(us[1..], a);
      forall i | 0 <= i < |r| ensures r[i].anchorage != us[0].anchorage {
        assert r[i] in us[1..];
      }
    }
  }

  // ----- Who is served before whom -----

  ghost predicate Before(us: seq<Unit>, a: uint32, b: uint32) {
    IndexOf(us, a) < IndexOf(us, b) < |us|
  }

  lemma {:induction false} WithWeightKeepsOrder(us: seq<Unit>, p: Unit, r: Unit)
    requires UniqueAnchorages(us) && p in us && r in us && p.Weight() == r.Weight()
    ensures Before(us, p.anchorage, r.anchorage) <==>
            Before(WithWeight(us, p.Weight()), p.anchorage, r.anchorage)
  {
    var tail := us[1..];
    assert us == [us[0]] + tail;
    if p in tail && r in tail {
      WithWeightKeepsOrder(tail, p, r);
    } else {
      WithWeightMembers(tail, p.Weight());
      if r in tail {
        MemberIsWaiting(WithWeight(tail, p.Weight()), r.anchorage);
        MemberIsWaiting(tail, r.anchorage);
      }
    }
  }

  lemma IndexOfMember(us: seq<Unit>, u: Unit)
    requires UniqueAnchorages(us) && u in us
    ensures IsWaiting(us, u.anchorage) && us[IndexOf(us, u.anchorage)] == u
  {
    var k :| 0 <= k < |us| && us[k] == u;
    IndexOfUnique(us, k);
  }

  // Heavier, or equally heavy and earlier.
  ghost predicate Outranks(arrivals: seq<Unit>, p: Unit, r: Unit) {
    p.Weight() > r.Weight() || (p.Weight() == r.Weight() && Before(arrivals, p.anchorage, r.anchorage))
  }

  // In the list `p` is ahead of `r` exactly when it outranks it.
  lemma ServedBefore(list: seq<Unit>, arrivals: seq<Unit>, p: Unit, r: Unit)
    requires UniqueAnchorages(list) && UniqueAnchorages(arrivals) && IsStableSortOf(list, arrivals)
    requires p in arrivals && r in arrivals
    ensures Before(list, p.anchorage, r.anchorage) <==> Outranks(arrivals, p, r)
  {
    SortMembers(list, arrivals);
    IndexOfMember(list, p);
    IndexOfMember(list, r);
    if p.Weight() == r.Weight() {
      WithWeightKeepsOrder(list, p, r);
      WithWeightKeepsOrder(arrivals, p, r);
      assert WithWeight(list, p.Weight()) == WithWeight(arrivals, p.Weight());
    }
  }

  // ----- A stable sort is a list in which everybody outranks all behind -----

  ghost predicate SameUnits(list: seq<Unit>, arrivals: seq<Unit>) {
    && UniqueAnchorages(list) && UniqueAnchorages(arrivals)
    && forall u :: u in list <==> u in arrivals
  }

  ghost predicate RankedBy(list: seq<Unit>, arrivals: seq<Unit>) {
    forall i, j :: 0 <= i < j < |list| ==> Outranks(arrivals, list[i], list[j])
  }

  ghost predicate NeighboursRanked(list: seq<Unit>, arrivals: seq<Unit>) {
    forall i, j :: 0 <= i && i + 1 == j < |list| ==> Outranks(arrivals, list[i], list[j])
  }

  lemma {:induction false} NeighboursSuffice(list: seq<Unit>, arrivals: seq<Unit>, i: nat, j: nat)
    requires NeighboursRanked(list, arrivals) && i < j < |list|
    ensures Outranks(arrivals, list[i], list[j])
    decreases j - i
  {
    if i + 1 < j {
      NeighboursSuffice(list, arrivals, i, j - 1);
      assert Outranks(arrivals, list[j - 1], list[j]);
    }
  }

  lemma SortIsRanked(list: seq<Unit>, arrivals: seq<Unit>)
    requires SameUnits(list, arrivals) && IsStableSortOf(list, arrivals)
    ensures RankedBy(list, arrivals)
  {
    forall i, j | 0 <= i < j < |list| ensures Outranks(arrivals, list[i], list[j]) {
      assert list[i] in list && list[j] in list;
      IndexOfUnique(list, i);
      IndexOfUnique(list, j);
      ServedBefore(list, arrivals, list[i], list[j]);
    }
  }

  lemma BeforeInRanked(list: seq<Unit>, arrivals: seq<Unit>, p: Unit, r: Unit)
    requires SameUnits(list, arrivals) && RankedBy(list, arrivals) && p in list && r in list
    ensures Before(list, p.anchorage, r.anchorage) <==> Outranks(arrivals, p, r)
  {
    IndexOfMember(list, p);
    IndexOfMember(list, r);
  }

  lemma {:induction false} WithWeightIsUnique(us: seq<Unit>, w: uint32)
    requires UniqueAnchorages(us)
    ensures UniqueAnchorages(WithWeight(us, w))
  {
    if us != [] {
      var tail := us[1..];
      WithWeightIsUnique(tail, w);
      WithWeightMembers(tail, w);
      var r := WithWeight(tail, w);
      forall i | 0 <= i < |r| ensures r[i].anchorage != us[0].anchorage {
        assert r[i] in tail;
      }
    }
  }

  lemma BeforeInTail(s: seq<Unit>, p: Unit, r: Unit)
    requires UniqueAnchorages(s) && s != [] && p in s[1..] && r in s[1..]
    ensures Before(s[1..], p.anchorage, r.anchorage) <==> Before(s, p.anchorage, r.anchorage)
  {
  }

  ghost predicate SameOrder(s: seq<Unit>, t: seq<Unit>) {
    && SameUnits(s, t)
    && forall p, r :: p in s && r in s ==>
         (Before(s, p.anchorage, r.anchorage) <==> Before(t, p.anchorage, r.anchorage))
  }

  lemma SameFirst(s: seq<Unit>, t: seq<Unit>)
    requires SameOrder(s, t) && s != [] && t != []
    ensures s[0] == t[0]
  {
    assert s[0] in t && t[0] in s;
    IndexOfMember(s, t[0]);
    IndexOfMember(t, s[0]);
  }

  // Unique units in the same order are the same list.
  lemma {:induction false} SameOrderIsSame(s: seq<Unit>, t: seq<Unit>)
    requires SameOrder(s, t)
    ensures s == t
  {
    if s == [] {
      SubsetOfEmpty(t, s);
    } else {
      SubsetOfEmpty(s, t);
      SameFirst(s, t);
      var s', t' := s[1..], t[1..];
      forall u ensures u in s' <==> u in t' {
        assert u in s <==> u == s[0] || u in s';
        assert u in t <==> u == t[0] || u in t';
      }
      forall p, r | p in s' && r in s'
        ensures Before(s', p.anchorage, r.anchorage) <==> Before(t', p.anchorage, r.anchorage)
      {
        BeforeInTail(s, p, r);
        BeforeInTail(t, p, r);
      }
      SameOrderIsSame(s', t');
    }
  }

  lemma RankedIsSort(list: seq<Unit>, arrivals: seq<Unit>)
    requires SameUnits(list, arrivals) && RankedBy(list, arrivals)
    ensures IsStableSortOf(list, arrivals)
  {
    forall w: uint32 ensures WithWeight(list, w) == WithWeight(arrivals, w) {
      var s, t := WithWeight(list, w), WithWeight(arrivals, w);
      WithWeightMembers(list, w);
      WithWeightMembers(arrivals, w);
      WithWeightIsUnique(list, w);
      WithWeightIsUnique(arrivals, w);
      forall p, r | p in s && r in s
        ensures Before(s, p.anchorage, r.anchorage) <==> Before(t, p.anchorage, r.anchorage)
      {
        BeforeInRanked(list, arrivals, p, r);
        WithWeightKeepsOrder(list, p, r);
        WithWeightKeepsOrder(arrivals, p, r);
      }
      SameOrderIsSame(s, t);
    }
  }

  // ----- Updates in place -----

  // The unit `u` at position `i` would still stand where it belongs: outranked
  // by the one in front, outranking the one behind.
  ghost predicate FitsAt(list: seq<Unit>, arrivals: seq<Unit>, i: nat, u: Unit)
    requires i < |list|
  {
    && (i > 0 ==> Outranks(arrivals, list[i - 1], u))
    && (i + 1 < |list| ==> Outranks(arrivals, u, list[i + 1]))
  }

  lemma RedataIsUpdate(us: seq<Unit>, a: uint32, d: UnitData)
    requires UniqueAnchorages(us) && IsWaiting(us, a)
    ensures us[IndexOf(us, a) := Unit(a, d)] == Redata(us, a, d)
    ensures UniqueAnchorages(Redata(us, a, d))
    ensures forall u :: u in Redata(us, a, d) <==> u == Unit(a, d) || (u in us && u.anchorage != a)
    ensures forall b :: IndexOf(Redata(us, a, d), b) == IndexOf(us, b)
  {
    var i, u := IndexOf(us, a), Unit(a, d);
    UpdateUnit(us, i, u);
    forall b ensures IndexOf(us[i := u], b) == IndexOf(us, b) {
      if IsWaiting(us, b) {
        IndexAfterUpdate(us, i, u, b);
      }
    }
    forall v | v in us && v.anchorage != a ensures v in us[i := u] {
      var k :| 0 <= k < |us| && us[k] == v;
      assert us[i := u][k] == v;
    }
    assert us[i := u][i] == u;
  }

  lemma UpdatedUnits(list: seq<Unit>, arrivals: seq<Unit>, a: uint32, d: UnitData)
    requires SameUnits(list, arrivals) && IsWaiting(list, a)
    ensures IsWaiting(arrivals, a) && SameUnits(Redata(list, a, d), Redata(arrivals, a, d))
    ensures forall p, r :: Outranks(Redata(arrivals, a, d), p, r) <==> Outranks(arrivals, p, r)
  {
    assert list[IndexOf(list, a)] in arrivals;
    IndexOfMember(arrivals, list[IndexOf(list, a)]);
    RedataIsUpdate(list, a, d);
    RedataIsUpdate(arrivals, a, d);
  }

  lemma SortedUpdateFits(list: seq<Unit>, arrivals: seq<Unit>, a: uint32, d: UnitData)
    requires SameUnits(list, arrivals) && IsWaiting(list, a)
    requires IsStableSortOf(Redata(list, a, d), Redata(arrivals, a, d))
    ensures FitsAt(list, arrivals, IndexOf(list, a), Unit(a, d))
  {
    var i, list' := IndexOf(list, a), Redata(list, a, d);
    RedataIsUpdate(list, a, d);
    UpdatedUnits(list, arrivals, a, d);
    SortIsRanked(list', Redata(arrivals, a, d));
    assert i > 0 ==> Outranks(arrivals, list'[i - 1], list'[i]);
    assert i + 1 < |list| ==> Outranks(arrivals, list'[i], list'[i + 1]);
  }

  lemma FittingUpdateSorts(list: seq<Unit>, arrivals: seq<Unit>, a: uint32, d: UnitData)
    requires SameUnits(list, arrivals) && IsStableSortOf(list, arrivals) && IsWaiting(list, a)
    requires FitsAt(list, arrivals, IndexOf(list, a), Unit(a, d))
    ensures IsStableSortOf(Redata(list, a, d), Redata(arrivals, a, d))
  {
    var list', arrivals' := Redata(list, a, d), Redata(arrivals, a, d);
    RedataIsUpdate(list, a, d);
    UpdatedUnits(list, arrivals, a, d);
    SortIsRanked(list, arrivals);
    assert NeighboursRanked(list', arrivals');
    forall k, j | 0 <= k < j < |list'| ensures Outranks(arrivals', list'[k], list'[j]) {
      NeighboursSuffice(list', arrivals', k, j);
    }
    RankedIsSort(list', arrivals');
  }

  // Overwriting the data of a waiting viewer in place leaves the stable sort of
  // the arrivals exactly when the unit still fits between its neighbours, by
  // weight and, among equals, by arrival.
  lemma UpdateKeepsSortIff(list: seq<Unit>, arrivals: seq<Unit>, a: uint32, d: UnitData)
    requires SameUnits(list, arrivals) && IsStableSortOf(list, arrivals) && IsWaiting(list, a)
    ensures IsStableSortOf(list[IndexOf(list, a) := Unit(a, d)], Redata(arrivals, a, d))
            <==> FitsAt(list, arrivals, IndexOf(list, a), Unit(a, d))
  {
    RedataIsUpdate(list, a, d);
    if IsStableSortOf(Redata(list, a, d), Redata(arrivals, a, d)) {
      SortedUpdateFits(list, arrivals, a, d);
    }
    if FitsAt(list, arrivals, IndexOf(list, a), Unit(a, d)) {
      FittingUpdateSorts(list, arrivals, a, d);
    }
  }

  // ----- Without any assumption on weights -----

  // Overwriting a weight in place keeps a sorted list sorted exactly when the
  // new weight still fits between the neighbours.
  lemma UpdateKeepsSortedIff(us: seq<Unit>, i: nat, u: Unit)
    requires Sorted(us) && i < |us|
    ensures Sorted(us[i := u]) <==>
            (i > 0 ==> us[i - 1].Weight() >= u.Weight()) &&
            (i + 1 < |us| ==> u.Weight() >= us[i + 1].Weight())
  {
    var r := us[i := u];
    if Sorted(r) {
      assert i > 0 ==> r[i - 1].Weight() >= r[i].Weight();
      assert i + 1 < |us| ==> r[i].Weight() >= r[i + 1].Weight();
    }
  }

  lemma IndexAfterRemove(us: seq<Unit>, k: nat, a: uint32)
    requires UniqueAnchorages(us) && k < |us| && us[k].anchorage != a
    ensures IsWaiting(us, a) ==>
              IndexOf(RemoveAt(us, k), a) == if IndexOf(us, a) < k then IndexOf(us, a) else IndexOf(us, a) - 1
    ensures IsWaiting(RemoveAt(us, k), a) <==> IsWaiting(us, a)
  {
    var r := RemoveAt(us, k);
    assert forall j :: 0 <= j < |r| ==> r[j] == if j < k then us[j] else us[j + 1];
    var i := IndexOf(us, a);
    if i < |us| {
      IndexOfUnique(r, if i < k then i else i - 1);
    }
  }

  lemma IndexAfterInsert(us: seq<Unit>, k: nat, u: Unit, a: uint32)
    requires UniqueAnchorages(us) && k <= |us| && !IsWaiting(us, u.anchorage) && IsWaiting(us, a)
    ensures IndexOf(InsertAt(us, k, u), a) == if IndexOf(us, a) < k then IndexOf(us, a) else IndexOf(us, a) + 1
  {
    InsertUnit(us, k, u);
    var i := IndexOf(us, a);
    assert InsertAt(us, k, u)[if i < k then i else i + 1] == us[i];
    IndexOfUnique(InsertAt(us, k, u), if i < k then i else i + 1);
  }

  lemma IndexAfterUpdate(us: seq<Unit>, k: nat, u: Unit, a: uint32)
    requires UniqueAnchorages(us) && k < |us| && us[k].anchorage == u.anchorage && IsWaiting(us, a)
    ensures IndexOf(us[k := u], a) == IndexOf(us, a)
  {
    UpdateUnit(us, k, u);
    IndexOfUnique(us[k := u], IndexOf(us, a));
  }
}
