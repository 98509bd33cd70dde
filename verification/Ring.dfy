// The intrusive ring of utils.h: a node embedded in a unit, or a bare sentinel.
module Ring {
  import opened Common
  import opened WaitingList

  // `list_entry` is the field `unit`: it may be read only when the node is
  // embedded in a unit, so every use of it proves that the node is not the
  // sentinel.
  class Node {
    var prev: Node
    var next: Node
    var unit: Option<Unit>

    // LIST_NODE_INIT: a node is its own ring.
    constructor (u: Option<Unit>)
      ensures prev == this && next == this && unit == u
    {
      prev, next, unit := this, this, u;
    }

    function Entry(): Unit
      requires unit.Some?
      reads this`unit
    {
      unit.value
    }
  }

  // Starting at `head`, `next` leads through `nodes` in order and back to
  // `head`, and `prev` is its inverse.
  ghost predicate IsRing(head: Node, nodes: seq<Node>)
    reads head, nodes
  {
    && head !in nodes
    && Distinct(nodes)
    && head.next == (if nodes == [] then head else nodes[0])
    && head.prev == (if nodes == [] then head else nodes[|nodes| - 1])
    && (forall i {:trigger nodes[i].next} :: 0 <= i < |nodes| ==>
          nodes[i].next == if i + 1 < |nodes| then nodes[i + 1] else head)
    && (forall i {:trigger nodes[i].prev} :: 0 <= i < |nodes| ==>
          nodes[i].prev == if i > 0 then nodes[i - 1] else head)
  }

  // The node at position `i` of the ring, counting the sentinel as position 0.
  ghost function Position(head: Node, nodes: seq<Node>, i: nat): Node
    requires i <= |nodes|
  {
    if i == 0 then head else nodes[i - 1]
  }

  // The ring of `nodes` with `src` spliced in between positions `k` and `k + 1`.
  ghost predicate SplicedIn(head: Node, nodes: seq<Node>, k: nat, src: Node)
    requires k <= |nodes|
    reads head, nodes, src
  {
    && src.prev == Position(head, nodes, k)
    && src.next == (if k < |nodes| then nodes[k] else head)
    && head.next == (if k == 0 then src else nodes[0])
    && head.prev == (if k == |nodes| then src else nodes[|nodes| - 1])
    && (forall i {:trigger nodes[i].next} :: 0 <= i < |nodes| ==>
          nodes[i].next == if i + 1 == k then src else if i + 1 < |nodes| then nodes[i + 1] else head)
    && (forall i {:trigger nodes[i].prev} :: 0 <= i < |nodes| ==>
          nodes[i].prev == if i == k then src else if i > 0 then nodes[i - 1] else head)
  }

  lemma SpliceIsRing(head: Node, nodes: seq<Node>, k: nat, src: Node)
    requires head !in nodes && Distinct(nodes) && k <= |nodes|
    requires src != head && src !in nodes
    requires SplicedIn(head, nodes, k, src)
    ensures IsRing(head, InsertAt(nodes, k, src))
  {
    InsertKeepsDistinct(nodes, k, src);
    var r := InsertAt(nodes, k, src);
    forall i | 0 <= i < |r|
      ensures r[i].next == if i + 1 < |r| then r[i + 1] else head
      ensures r[i].prev == if i > 0 then r[i - 1] else head
    {
      if i < k {
        assert r[i] == nodes[i];
      } else if i > k {
        assert r[i] == nodes[i - 1];
      }
    }
  }

  // The ring of `nodes` with position `k + 1` bypassed.
  ghost predicate SplicedOut(head: Node, nodes: seq<Node>, k: nat)
    requires k < |nodes|
    reads head, nodes
  {
    var after := if k + 1 < |nodes| then nodes[k + 1] else head;
    && head.next == (if k == 0 then after else nodes[0])
    && head.prev == (if k + 1 == |nodes| then Position(head, nodes, k) else nodes[|nodes| - 1])
    && (forall i {:trigger nodes[i].next} :: 0 <= i < |nodes| && i != k ==>
          nodes[i].next == if i + 1 == k then after else if i + 1 < |nodes| then nodes[i + 1] else head)
    && (forall i {:trigger nodes[i].prev} :: 0 <= i < |nodes| && i != k ==>
          nodes[i].prev == if i == k + 1 then Position(head, nodes, k) else if i > 0 then nodes[i - 1] else head)
  }

  lemma SpliceOutIsRing(head: Node, nodes: seq<Node>, k: nat)
    requires head !in nodes && Distinct(nodes) && k < |nodes|
    requires SplicedOut(head, nodes, k)
    ensures IsRing(head, RemoveAt(nodes, k))
  {
    RemoveKeepsDistinct(nodes, k);
    var r := RemoveAt(nodes, k);
    forall i | 0 <= i < |r|
      ensures r[i].next == if i + 1 < |r| then r[i + 1] else head
      ensures r[i].prev == if i > 0 then r[i - 1] else head
    {
      if i < k {
        assert r[i] == nodes[i];
      } else {
        assert r[i] == nodes[i + 1];
      }
    }
  }

  // LIST_APPEND_REAR
  method AppendRear(dst: Node, src: Node, ghost head: Node, ghost nodes: seq<Node>, ghost k: nat)
    requires IsRing(head, nodes)
    requires k <= |nodes| && dst == Position(head, nodes, k)
    requires src != head && src !in nodes
    modifies src`prev, src`next, dst`next, dst.next`prev
    ensures IsRing(head, InsertAt(nodes, k, src))
  {
    src.next := dst.next;
    src.prev := dst;
    dst.next.prev := src;
    dst.next := src;
    SpliceIsRing(head, nodes, k, src);
  }

  // LIST_APPEND_AHEAD
  method AppendAhead(dst: Node, src: Node, ghost head: Node, ghost nodes: seq<Node>, ghost k: nat)
    requires IsRing(head, nodes)
    requires k < |nodes| && dst == nodes[k]
    requires src != head && src !in nodes
    modifies src`prev, src`next, dst`prev, dst.prev`next
    ensures IsRing(head, InsertAt(nodes, k, src))
  {
    src.prev := dst.prev;
    src.next := dst;
    dst.prev.next := src;
    dst.prev := src;
    SpliceIsRing(head, nodes, k, src);
  }

  // LIST_SUBTRACT: the removed node keeps its own pointers.
  method Subtract(dst: Node, ghost head: Node, ghost nodes: seq<Node>, ghost k: nat)
    requires IsRing(head, nodes)
    requires k < |nodes| && dst == nodes[k]
    modifies dst.prev`next, dst.next`prev
    ensures IsRing(head, RemoveAt(nodes, k))
  {
    dst.prev.next := dst.next;
    dst.next.prev := dst.prev;
    SpliceOutIsRing(head, nodes, k);
  }
}
