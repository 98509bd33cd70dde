// The waiting list of qlist.c on its ring of nodes.
module Qlist {
  import opened Common
  import opened WaitingList
  import opened Ring

  ghost predicate Embedded(nodes: seq<Node>, units: seq<Unit>)
    reads nodes`unit
  {
    |nodes| == |units| && forall i :: 0 <= i < |nodes| ==> nodes[i].unit == Some(units[i])
  }

  lemma EmbeddedInsert(nodes: seq<Node>, units: seq<Unit>, k: nat, node: Node, u: Unit)
    requires Embedded(nodes, units) && k <= |nodes| && node.unit == Some(u)
    ensures Embedded(InsertAt(nodes, k, node), InsertAt(units, k, u))
  {
  }

  lemma EmbeddedRemove(nodes: seq<Node>, units: seq<Unit>, k: nat)
    requires Embedded(nodes, units) && k < |nodes|
    ensures Embedded(RemoveAt(nodes, k), RemoveAt(units, k))
  {
  }

  class BliveQlist {
    var elemNum: nat
    var tmpUnit: Node?
    const listHead: Node
    ghost var nodes: seq<Node>  // the ring, without its sentinel
    ghost var units: seq<Unit>  // what the nodes are embedded in

    ghost predicate Valid()
      reads this, listHead, nodes
    {
      && IsRing(listHead, nodes)
      && listHead.unit.None?
      && elemNum == |nodes|
      && Embedded(nodes, units)
      && UniqueAnchorages(units)
      && (tmpUnit != null ==> tmpUnit in nodes)
    }

    ghost function State(): QState
      requires Valid()
      reads this, listHead, nodes
    {
      QState(units, if tmpUnit == null then None else Some(tmpUnit.Entry().anchorage))
    }

    // qlist_create
    constructor ()
      ensures Valid() && State() == EMPTY
      ensures fresh(listHead) && nodes == []
    {
      elemNum, tmpUnit, nodes, units := 0, null, [], [];
      listHead := new Node(None);
    }

    lemma StateWellFormed()
      requires Valid()
      ensures WellFormed(State())
      ensures tmpUnit != null ==> nodes[IndexOf(units, tmpUnit.Entry().anchorage)] == tmpUnit
    {
      if tmpUnit != null {
        var t :| 0 <= t < |nodes| && nodes[t] == tmpUnit;
        IndexOfUnique(units, t);
      }
    }

    // qlist_search
    method Search(anchorage: uint32) returns (r: Node?)
      requires Valid()
      modifies this`tmpUnit
      ensures Valid() && State() == Searched(old(State()), anchorage)
      ensures r == null <==> !IsWaiting(units, anchorage)
      ensures r != null ==> r == tmpUnit == nodes[IndexOf(units, anchorage)]
    {
      StateWellFormed();
      if elemNum == 0 {
        return null;
      }
      if tmpUnit != null && tmpUnit.Entry().anchorage == anchorage {
        return tmpUnit;
      }
      var listPtr := listHead;
      for count := 0 to elemNum
        invariant listPtr == if count == 0 then listHead else nodes[|nodes| - count]
        invariant forall i :: |nodes| - count <= i < |nodes| ==> units[i].anchorage != anchorage
      {
        listPtr := listPtr.prev;
        ghost var i := |nodes| - count - 1;
        assert listPtr == nodes[i];
        if listPtr.Entry().anchorage == anchorage {
          IndexOfUnique(units, i);
          tmpUnit := listPtr;
          return listPtr;
        }
      }
      return null;
    }

    // qlist_append: links `node` in, or leaves the ring alone. The caller
    // adjusts the count.
    method Append(node: Node) returns (err: Errno, ghost k: nat)
      requires Valid()
      requires node.unit.Some? && node != listHead && node !in nodes
      modifies listHead`prev, listHead`next, node`prev, node`next, nodes`prev, nodes`next
      ensures old(InsertPos(State(), node.Entry().Weight())) == if err == Ok then Some(k) else None
      ensures err == Ok ==> k <= |nodes| && IsRing(listHead, InsertAt(nodes, k, node))
      ensures err != Ok ==> err == ErrUnknown && unchanged(listHead, nodes)
    {
      StateWellFormed();
      ghost var w := node.Entry().Weight();
      if elemNum == 0 {
        AppendRear(listHead, node, listHead, nodes, 0);
        return Ok, 0;
      }
      var tailUnit, frontUnit := listHead.prev, listHead.next;
      if frontUnit.Entry().Weight() < node.Entry().Weight() {
        AppendAhead(frontUnit, node, listHead, nodes, 0);
        return Ok, 0;
      }
      if tailUnit.Entry().Weight() >= node.Entry().Weight() {
        AppendRear(tailUnit, node, listHead, nodes, |nodes|);
        return Ok, |nodes|;
      }
      err, k := AppendInside(node, tailUnit, frontUnit, State(), node.Entry().Weight());
    }

    // qlist_append from line 95 on: choose the range to scan.
    method AppendInside(node: Node, tailUnit: Node, frontUnit: Node, ghost q: QState, ghost w: uint32)
      returns (err: Errno, ghost k: nat)
      requires Valid() && WellFormed(q) && q == State()
      requires node.unit.Some? && node != listHead && node !in nodes
      requires nodes != [] && frontUnit == nodes[0] && tailUnit == nodes[|nodes| - 1]
      requires units[0].Weight() >= w == node.Entry().Weight() > units[|units| - 1].Weight()
      modifies listHead`prev, listHead`next, node`prev, node`next, nodes`prev, nodes`next
      ensures PosFromScan(units, ScanBounds(q, w).0, ScanBounds(q, w).1, w) == if err == Ok then Some(k) else None
      ensures err == Ok ==> k <= |nodes| && IsRing(listHead, InsertAt(nodes, k, node))
      ensures err != Ok ==> err == ErrUnknown && unchanged(listHead, nodes)
    {
      StateWellFormed();
      ghost var (begin, end) := ScanBounds(q, w);
      var beginUnit, endUnit := tailUnit, frontUnit;
      if tmpUnit != null {
        if tmpUnit.Entry().Weight() > node.Entry().Weight() {
          endUnit := tmpUnit;
        } else if tmpUnit.Entry().Weight() < node.Entry().Weight() {
          beginUnit := tmpUnit;
        }
      }
      assert beginUnit == nodes[begin] && endUnit == nodes[end];
      err, k := AppendInRange(node, beginUnit, endUnit, begin, end);
    }

    // qlist_append from line 110 on: walk the range towards the front.
    method AppendInRange(node: Node, beginUnit: Node, endUnit: Node, ghost begin: nat, ghost end: nat)
      returns (err: Errno, ghost k: nat)
      requires IsRing(listHead, nodes) && Embedded(nodes, units)
      requires node.unit.Some? && node != listHead && node !in nodes
      requires end <= begin < |nodes| && beginUnit == nodes[begin] && endUnit == nodes[end]
      modifies listHead`prev, listHead`next, node`prev, node`next, nodes`prev, nodes`next
      ensures PosFromScan(units, begin, end, node.Entry().Weight()) == if err == Ok then Some(k) else None
      ensures err == Ok ==> k <= |nodes| && IsRing(listHead, InsertAt(nodes, k, node))
      ensures err != Ok ==> err == ErrUnknown && unchanged(listHead, nodes)
    {
      ghost var w := node.Entry().Weight();
      var searchUnit := beginUnit;
      ghost var j := begin;
      while searchUnit != endUnit
        invariant end <= j <= begin && searchUnit == nodes[j]
        invariant ScanDown(units, begin, end, w) == ScanDown(units, j, end, w)
        decreases j
      {
        if searchUnit.Entry().Weight() >= node.Entry().Weight() {
          AppendRear(searchUnit, node, listHead, nodes, j + 1);
          return Ok, j + 1;
        }
        searchUnit := searchUnit.prev;
        j := j - 1;
      }
      assert j == end;
      if endUnit.Entry().Weight() > node.Entry().Weight() {
        AppendRear(endUnit, node, listHead, nodes, end + 1);
        return Ok, end + 1;
      }
      return ErrUnknown, 0;
    }

    // qlist_anchorage_existence
    method AnchorageExistence(anchorage: uint32) returns (res: bool)
      requires Valid()
      modifies this`tmpUnit
      ensures Valid() && State() == Searched(old(State()), anchorage)
      ensures res <==> exists i :: 0 <= i < |units| && units[i].anchorage == anchorage
    {
      var unit := Search(anchorage);
      MemberIsWaiting(units, anchorage);
      res := unit != null;
    }

    // qlist_append_update
    method AppendUpdate(anchorage: uint32, data: UnitData) returns (err: Errno)
      requires Valid()
      modifies this, listHead, nodes
      ensures Valid() && (State(), err) == old(AppendUpdated(State(), anchorage, data))
      ensures forall n :: n in nodes ==> n in old(nodes) || fresh(n)
    {
      StateWellFormed();
      var node := Search(anchorage);
      if node != null {
        Overwrite(node, anchorage, data);
        return Ok;
      }
      err := Insert(anchorage, data);
    }

    // The first branch of qlist_append_update: the viewer is waiting.
    method Overwrite(node: Node, anchorage: uint32, data: UnitData)
      requires Valid() && IsWaiting(units, anchorage) && node == nodes[IndexOf(units, anchorage)]
      modifies node`unit, this`units
      ensures Valid() && units == old(units[IndexOf(units, anchorage) := Unit(anchorage, data)])
      ensures node.unit == Some(Unit(anchorage, data))
    {
      ghost var i := IndexOf(units, anchorage);
      node.unit := Some(Unit(anchorage, data));
      UpdateUnit(units, i, Unit(anchorage, data));
      units := units[i := Unit(anchorage, data)];
    }

    // The second branch of qlist_append_update: the viewer is not waiting.
    method Insert(anchorage: uint32, data: UnitData) returns (err: Errno)
      requires Valid() && !IsWaiting(units, anchorage)
      modifies this, listHead, nodes
      ensures Valid() && tmpUnit == old(tmpUnit) && (tmpUnit != null ==> tmpUnit.unit == old(tmpUnit.unit))
      ensures var pos := old(InsertPos(State(), data.weight));
              && (pos.Some? ==> err == Ok && units == InsertAt(old(units), pos.value, Unit(anchorage, data)))
              && (pos.None? ==> err == ErrUnknown && units == old(units))
      ensures forall n :: n in nodes ==> n in old(nodes) || fresh(n)
    {
      StateWellFormed();
      var node := new Node(Some(Unit(anchorage, data)));
      ghost var k;
      err, k := Append(node);
      if err == Ok {
        CountIn(node, k, Unit(anchorage, data));
      }
    }

    // elem_num++ once the ring holds the new node.
    method CountIn(node: Node, ghost k: nat, ghost u: Unit)
      requires k <= |nodes| && IsRing(listHead, InsertAt(nodes, k, node))
      requires listHead.unit.None? && elemNum == |nodes| && Embedded(nodes, units)
      requires UniqueAnchorages(units) && !IsWaiting(units, u.anchorage) && node.unit == Some(u)
      requires tmpUnit != null ==> tmpUnit in nodes
      modifies this`elemNum, this`nodes, this`units
      ensures Valid()
      ensures nodes == InsertAt(old(nodes), k, node) && units == InsertAt(old(units), k, u)
      ensures forall n :: n in nodes ==> n == node || n in old(nodes)
    {
      InsertUnit(units, k, u);
      InsertMembers(nodes, k, node);
      EmbeddedInsert(nodes, units, k, node, u);
      elemNum := elemNum + 1;
      nodes := InsertAt(nodes, k, node);
      units := InsertAt(units, k, u);
    }

    // qlist_subtract
    method Remove(anchorage: uint32) returns (err: Errno)
      requires Valid()
      modifies this, listHead, nodes
      ensures Valid() && (State(), err) == old(Subtracted(State(), anchorage))
      ensures forall n :: n in nodes ==> n in old(nodes)
    {
      StateWellFormed();
      var node := Search(anchorage);
      if node == null {
        return ErrResource;
      }
      ghost var k := IndexOf(units, anchorage);
      Subtract(node, listHead, nodes, k);
      CountOut(node, k);
      return Ok;
    }

    // The cache is cleared and the count lowered once the ring is without the
    // node.
    method CountOut(node: Node, ghost k: nat)
      requires k < |nodes| && node == nodes[k] && IsRing(listHead, RemoveAt(nodes, k))
      requires listHead.unit.None? && elemNum == |nodes| && Embedded(nodes, units)
      requires UniqueAnchorages(units) && tmpUnit == node
      modifies this`tmpUnit, this`elemNum, this`nodes, this`units
      ensures Valid() && tmpUnit == null
      ensures nodes == RemoveAt(old(nodes), k) && units == RemoveAt(old(units), k)
      ensures forall n :: n in nodes ==> n in old(nodes)
    {
      RemoveMembers(nodes, k);
      EmbeddedRemove(nodes, units, k);
      if tmpUnit == node {
        tmpUnit := null;
      }
      elemNum := elemNum - 1;
      nodes := RemoveAt(nodes, k);
      units := RemoveAt(units, k);
    }

    // The node a traversal is at after `count` moves away from the sentinel.
    ghost function Reached(invertSeq: bool, count: nat): Node
      requires count <= |nodes|
      reads this
    {
      if count == 0 then listHead else if invertSeq then nodes[|nodes| - count] else nodes[count - 1]
    }

    method Advance(listPtr: Node, invertSeq: bool, ghost count: nat) returns (r: Node, unit: Unit)
      requires Valid() && count < |nodes| && listPtr == Reached(invertSeq, count)
      ensures |units| == |nodes| && r == Reached(invertSeq, count + 1)
      ensures unit == units[if invertSeq then |units| - 1 - count else count]
    {
      r := if invertSeq then listPtr.prev else listPtr.next;
      unit := r.Entry();
    }

    // qlist_foreach: `visited` are the calls made, in order.
    method Foreach(invertSeq: bool, wants: Unit -> bool) returns (err: Errno, visited: seq<Unit>)
      requires Valid()
      ensures visited == VisitedFrom(InOrder(units, invertSeq), wants)
      ensures err == if units == [] then ErrResource
                     else if visited != [] && !wants(visited[|visited| - 1]) then ErrTerminate
                     else Ok
    {
      if elemNum == 0 {
        return ErrResource, [];
      }
      ghost var order := InOrder(units, invertSeq);
      var stopped;
      stopped, visited := Walk(invertSeq, wants, order);
      VisitedAre(order, wants, if stopped then |visited| - 1 else |order|);
      return if stopped then ErrTerminate else Ok, visited;
    }

    // The loop of qlist_foreach.
    method Walk(invertSeq: bool, wants: Unit -> bool, ghost order: seq<Unit>)
      returns (stopped: bool, visited: seq<Unit>)
      requires Valid() && |order| == |units|
      requires forall i :: 0 <= i < |order| ==> order[i] == units[if invertSeq then |order| - 1 - i else i]
      ensures visited <= order
      ensures if stopped then visited != [] && !wants(visited[|visited| - 1]) else visited == order
      ensures forall i :: 0 <= i < |visited| && (stopped ==> i < |visited| - 1) ==> wants(visited[i])
    {
      var listPtr := listHead;
      visited := [];
      for count := 0 to elemNum
        invariant listPtr == Reached(invertSeq, count)
        invariant |visited| == count && visited <= order
        invariant forall i :: 0 <= i < count ==> wants(visited[i])
      {
        var unit;
        listPtr, unit := Advance(listPtr, invertSeq, count);
        visited := visited + [unit];
        if !wants(unit) {
          return true, visited;
        }
      }
      return false, visited;
    }
  }
}
