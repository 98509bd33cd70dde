// When the heap of pri_queue.c is a heap: exact conditions for the code as
// written, and the priority order it serves.
module HeapOrder {
  import opened HeapModel

  // ----- Sifting down -----

  // A heap but for the hole at `i`: every pair not touching `i` is ordered, and
  // the parent of `i` may stand above the children of `i`.
  ghost predicate HoleAt<T>(le: Compare<T>, h: seq<T>, i: nat) {
    && (forall j :: 2 <= j < |h| && j != i && j / 2 != i ==> le(h[j / 2], h[j]))
    && (i >= 2 ==> forall j :: 2 <= j < |h| && j / 2 == i ==> le(h[i / 2], h[j]))
  }

  lemma SinkStep<T(!new)>(le: Compare<T>, h: seq<T>, i: nat)
    requires TotalPreorder(le) && 1 <= i && 2 * i < |h| && HoleAt(le, h, i)
    ensures HoleAt(le, h[i := h[Winner(le, h, i)]], Winner(le, h, i))
  {
    var w := Winner(le, h, i);
    var g := h[i := h[w]];
    forall j | 2 <= j < |h| && j != w && j / 2 != w ensures le(g[j / 2], g[j]) {
      if j / 2 == i {
        assert j == 2 * i || j == 2 * i + 1;
      }
    }
    forall j | 2 <= j < |h| && j / 2 == w ensures le(g[w / 2], g[j]) {
      assert le(h[j / 2], h[j]);
    }
  }

  // Where the hole comes to rest, `x` outranks the children, and is outranked
  // by the parent if the hole has moved at all.
  lemma {:induction false} SinkRests<T(!new)>(le: Compare<T>, h: seq<T>, i: nat, x: T)
    requires TotalPreorder(le) && 1 <= i < |h| && HoleAt(le, h, i)
    ensures var (g, p) := Sink(le, h, i, x);
            && HoleAt(le, g, p)
            && (forall j :: 2 <= j < |g| && j / 2 == p ==> le(x, g[j]))
            && (if p == i then g == h else p >= 2 && le(g[p / 2], x))
    decreases |h| - i
  {
    if 2 * i < |h| {
      var w := Winner(le, h, i);
      if le(x, h[w]) {
        forall j | 2 <= j < |h| && j / 2 == i ensures le(x, h[j]) {
          assert j == 2 * i || j == 2 * i + 1;
        }
      } else {
        SinkStep(le, h, i);
        SinkRests(le, h[i := h[w]], w, x);
      }
    }
  }

  // ----- Sifting up -----

  // A heap but for slot `i`, which may outrank its parent.
  ghost predicate HighAt<T>(le: Compare<T>, h: seq<T>, i: nat) {
    && (forall j :: 2 <= j < |h| && j != i ==> le(h[j / 2], h[j]))
    && (i >= 2 ==> forall j :: 2 <= j < |h| && j / 2 == i ==> le(h[i / 2], h[j]))
  }

  lemma RiseStep<T(!new)>(le: Compare<T>, h: seq<T>, i: nat)
    requires TotalPreorder(le) && 2 <= i < |h| && HighAt(le, h, i) && !le(h[i / 2], h[i])
    ensures HighAt(le, h[i := h[i / 2]][i / 2 := h[i]], i / 2)
  {
    var p := i / 2;
    var g := h[i := h[p]][p := h[i]];
    forall j | 2 <= j < |h| && j != p ensures le(g[j / 2], g[j]) {
      if j / 2 == p && j != i {
        assert le(h[i], h[p]) && le(h[p], h[j]);
      }
    }
    forall j | p >= 2 && 2 <= j < |h| && j / 2 == p ensures le(g[p / 2], g[j]) {
      assert le(h[p / 2], h[p]);
      assert j != i ==> le(h[p], h[j]);
    }
  }

  lemma RisenIsOrdered<T>(le: Compare<T>, h: seq<T>, i: nat)
    requires 1 <= i < |h| && HighAt(le, h, i) && (i == 1 || le(h[i / 2], h[i]))
    ensures HeapOrdered(le, h)
  {
  }

  // Comparing the saved element restores the heap.
  lemma {:induction false} IntendedRiseOrders<T(!new)>(le: Compare<T>, h: seq<T>, i: nat, x: T)
    requires TotalPreorder(le) && 1 <= i < |h| && HighAt(le, h[i := x], i)
    ensures HeapOrdered(le, RiseIntended(le, h, i, x))
    decreases i
  {
    if i == 1 || le(h[i / 2], x) {
      RisenIsOrdered(le, h[i := x], i);
    } else {
      RiseStep(le, h[i := x], i);
      assert h[i := x][i := h[i / 2]][i / 2 := x] == h[i := h[i / 2]][i / 2 := x];
      IntendedRiseOrders(le, h[i := h[i / 2]], i / 2, x);
    }
  }

  // As written an element rises one level at most, and the result is a heap
  // exactly when one level is enough: the grandparent outranks the element.
  lemma RiseOrdersIff<T(!new)>(le: Compare<T>, h: seq<T>, i: nat)
    requires TotalPreorder(le) && 1 <= i < |h| && HighAt(le, h, i)
    ensures HeapOrdered(le, Rise(le, h, i, h[i])) <==> i < 4 || le(h[i / 4], h[i])
  {
    var x := h[i];
    if i == 1 || le(h[i / 2], x) {
      assert h[i := x] == h;
      RisenIsOrdered(le, h, i);
      if i >= 4 {
        assert i / 2 / 2 == i / 4;
        assert le(h[i / 4], h[i / 2]);
      }
    } else {
      var p := i / 2;
      var g := h[i := h[p]];
      if p >= 2 {
        assert p / 2 == i / 4;
        assert le(h[p / 2], h[p]);
        assert Rise(le, g, p, x) == g[p := x];
      }
      RiseStep(le, h, i);
      if p == 1 || le(h[p / 2], x) {
        RisenIsOrdered(le, g[p := x], p);
      } else {
        assert !le(g[p := x][p / 2], g[p := x][p]);
      }
    }
  }

  // ----- Push and remove -----

  lemma PushedHigh<T>(le: Compare<T>, h: seq<T>, x: T)
    requires h != [] && HeapOrdered(le, h)
    ensures HighAt(le, h + [x], |h|)
  {
  }

  // A push keeps the heap exactly when the grandparent of the new slot outranks
  // the new element, or there is none.
  lemma PushKeepsHeapIff<T(!new)>(le: Compare<T>, h: seq<T>, x: T)
    requires TotalPreorder(le) && h != [] && HeapOrdered(le, h)
    ensures HeapOrdered(le, Pushed(le, h, x)) <==> |h| < 4 || le(h[|h| / 4], x)
    ensures HeapOrdered(le, PushedIntended(le, h, x))
  {
    PushedHigh(le, h, x);
    RiseOrdersIff(le, h + [x], |h|);
    assert (h + [x])[|h| := x] == h + [x];
    IntendedRiseOrders(le, h + [x], |h|, x);
  }

  lemma SunkHigh<T(!new)>(le: Compare<T>, h: seq<T>, i: nat, g: seq<T>, p: nat)
    requires TotalPreorder(le) && HeapOrdered(le, h) && 1 <= i < |h| - 1
    requires (g, p) == Sink(le, h[..|h| - 1], i, h[|h| - 1])
    ensures HighAt(le, g[p := h[|h| - 1]], p)
    ensures if p == i then g == h[..|h| - 1] else p >= 2 && le(g[p / 2], h[|h| - 1])
  {
    var front, x := h[..|h| - 1], h[|h| - 1];
    assert HoleAt(le, front, i) by {
      forall j | i >= 2 && 2 <= j < |front| && j / 2 == i ensures le(front[i / 2], front[j]) {
        assert le(h[i / 2], h[i]) && le(h[i], h[j]);
      }
    }
    SinkRests(le, front, i, x);
  }

  lemma InnerRemovalKeepsHeapIff<T(!new)>(le: Compare<T>, h: seq<T>, i: nat, x: T, g: seq<T>, p: nat)
    requires TotalPreorder(le) && HeapOrdered(le, h) && 1 <= i < |h| - 1
    requires x == h[|h| - 1] && (g, p) == Sink(le, h[..|h| - 1], i, x)
    ensures HeapOrdered(le, Rise(le, g[p := x], p, x)) <==> i < 4 || le(h[i / 4], x)
    ensures HeapOrdered(le, RiseIntended(le, g[p := x], p, x))
  {
    SunkHigh(le, h, i, g, p);
    var f := g[p := x];
    assert f[p := x] == f;
    RiseOrdersIff(le, f, p);
    IntendedRiseOrders(le, f, p, x);
    if p != i {
      MovedHoleIsLow(le, h, i, g, p);
    }
  }

  // A removal keeps the heap exactly when the grandparent of the slot outranks
  // the tail that fills it, or there is none, or the slot is the last.
  lemma RemovalKeepsHeapIff<T(!new)>(le: Compare<T>, h: seq<T>, i: nat)
    requires TotalPreorder(le) && HeapOrdered(le, h) && 1 <= i < |h|
    ensures HeapOrdered(le, Removed(le, h, i)) <==> i == |h| - 1 || i < 4 || le(h[i / 4], h[|h| - 1])
    ensures HeapOrdered(le, RemovedIntended(le, h, i))
  {
    var x := h[|h| - 1];
    if i == |h| - 1 {
      assert h[i := x] == h;
    } else {
      var (g, p) := Sink(le, h[..|h| - 1], i, x);
      InnerRemovalKeepsHeapIff(le, h, i, x, g, p);
    }
  }

  // Once the hole has moved, the tail is outranked from above.
  lemma MovedHoleIsLow<T(!new)>(le: Compare<T>, h: seq<T>, i: nat, g: seq<T>, p: nat)
    requires TotalPreorder(le) && HeapOrdered(le, h) && 1 <= i < |h| - 1
    requires (g, p) == Sink(le, h[..|h| - 1], i, h[|h| - 1]) && p != i
    ensures p >= 4 ==> le(g[p / 4], h[|h| - 1])
    ensures i >= 4 ==> le(h[i / 4], h[|h| - 1])
  {
    var x := h[|h| - 1];
    SunkHigh(le, h, i, g, p);
    if p >= 4 {
      assert p / 2 / 2 == p / 4;
      assert le(g[p := x][p / 2 / 2], g[p := x][p / 2]);
    }
    if i >= 4 {
      var w := Winner(le, h[..|h| - 1], i);
      assert !le(x, h[w]);
      assert i / 2 / 2 == i / 4;
      assert le(h[i / 4], h[i / 2]) && le(h[i / 2], h[i]) && le(h[i], h[w]);
    }
  }

  // ----- Priority order -----

  lemma {:induction false} RootOutranks<T(!new)>(le: Compare<T>, h: seq<T>, j: nat)
    requires TotalPreorder(le) && HeapOrdered(le, h) && 1 <= j < |h|
    ensures le(h[1], h[j])
    decreases j
  {
    if j > 1 {
      RootOutranks(le, h, j / 2);
    }
  }

  lemma RootOutranksAll<T(!new)>(le: Compare<T>, h: seq<T>)
    requires TotalPreorder(le) && HeapOrdered(le, h) && |h| > 1
    ensures h[1] in Items(h) && forall x :: x in Items(h) ==> le(h[1], x)
  {
    forall x | x in Items(h) ensures le(h[1], x) {
      var j :| 0 <= j < |h[1..]| && h[1..][j] == x;
      RootOutranks(le, h, j + 1);
    }
    assert h[1] == h[1..][0];
  }

  // As written and on any array, heap or not: a push leaves the root alone when
  // the root outranks the new element.
  lemma {:induction false} RiseKeepsRoot<T(!new)>(le: Compare<T>, h: seq<T>, i: nat, x: T)
    requires TotalPreorder(le) && 2 <= i < |h| && le(h[1], x) && le(x, h[i])
    ensures Rise(le, h, i, x)[1] == h[1]
    decreases i
  {
    if !le(h[i / 2], h[i]) {
      assert le(h[i], h[i / 2]);
      RiseKeepsRoot(le, h[i := h[i / 2]], i / 2, x);
    }
  }

  lemma PushKeepsRoot<T(!new)>(le: Compare<T>, h: seq<T>, x: T)
    requires TotalPreorder(le) && |h| > 1 && le(h[1], x)
    ensures Pushed(le, h, x)[1] == h[1]
    ensures PushedIntended(le, h, x)[1] == h[1]
  {
    RiseKeepsRoot(le, h + [x], |h|, x);
    IntendedRiseKeepsRoot(le, h + [x], |h|, x);
  }

  // Whether, as written, an element sent up from slot `i` reaches the root:
  // every comparison on the way is between a parent and the element that was
  // below it before.
  predicate Climbs<T>(le: Compare<T>, h: seq<T>, i: nat)
    requires 1 <= i < |h|
    decreases i
  {
    i == 1 || (!le(h[i / 2], h[i]) && Climbs(le, h, i / 2))
  }

  lemma {:induction false} ClimbsBelow<T>(le: Compare<T>, h: seq<T>, g: seq<T>, i: nat)
    requires 1 <= i < |h| && |g| == |h| && forall j :: 1 <= j <= i ==> g[j] == h[j]
    ensures Climbs(le, g, i) == Climbs(le, h, i)
    decreases i
  {
    if i != 1 {
      ClimbsBelow(le, h, g, i / 2);
    }
  }

  lemma {:induction false} RiseRoot<T>(le: Compare<T>, h: seq<T>, i: nat, x: T)
    requires 1 <= i < |h|
    ensures Rise(le, h, i, x)[1] == if Climbs(le, h, i) then x else h[1]
    decreases i
  {
    if i != 1 && !le(h[i / 2], h[i]) {
      var g := h[i := h[i / 2]];
      RiseRoot(le, g, i / 2, x);
      ClimbsBelow(le, h, g, i / 2);
    }
  }

  // On any array, heap or not: the new element becomes the root exactly when
  // its whole path to the root was out of order.
  lemma PushRootIff<T>(le: Compare<T>, h: seq<T>, x: T)
    requires |h| > 1
    ensures Pushed(le, h, x)[1] == if Climbs(le, h + [x], |h|) then x else h[1]
  {
    RiseRoot(le, h + [x], |h|, x);
  }

  // On a heap that is the case only right below the root: no push onto three or
  // more elements changes the root.
  lemma HeapRootChangesIff<T(!new)>(le: Compare<T>, h: seq<T>, x: T)
    requires HeapOrdered(le, h) && |h| > 1
    ensures Climbs(le, h + [x], |h|) <==> |h| < 4 && !le(h[1], x)
  {
    var p := |h| / 2;
    if p != 1 {
      assert le(h[p / 2], h[p]);
    }
  }

  lemma {:induction false} IntendedRiseKeepsRoot<T(!new)>(le: Compare<T>, h: seq<T>, i: nat, x: T)
    requires TotalPreorder(le) && 2 <= i < |h| && le(h[1], x)
    ensures RiseIntended(le, h, i, x)[1] == h[1]
    decreases i
  {
    if !le(h[i / 2], x) {
      IntendedRiseKeepsRoot(le, h[i := h[i / 2]], i / 2, x);
    }
  }

  // With the saved element compared, the root survives a series of pushes
  // exactly when it outranks everything pushed.
  lemma {:induction false} FillingKeepsRoot<T(!new)>(le: Compare<T>, h: seq<T>, xs: seq<T>)
    requires TotalPreorder(le) && |h| > 1 && forall x :: x in xs ==> le(h[1], x)
    ensures |FilledIntended(le, h, xs)| > 1 && FilledIntended(le, h, xs)[1] == h[1]
    decreases |xs|
  {
    if xs != [] {
      PushKeepsRoot(le, h, xs[0]);
      FillingKeepsRoot(le, PushedIntended(le, h, xs[0]), xs[1..]);
    }
  }

  lemma RootSurvivesIff<T(!new)>(le: Compare<T>, h: seq<T>, xs: seq<T>)
    requires TotalPreorder(le) && HeapOrdered(le, h) && |h| > 1
    ensures |FilledIntended(le, h, xs)| > 1
    ensures FilledIntended(le, h, xs)[1] == h[1] <==> forall x :: x in xs ==> le(h[1], x)
  {
    var r := FilledIntended(le, h, xs);
    FillingKeepsHeap(le, h, xs);
    FilledSize(le, h, xs);
    RootOutranksAll(le, r);
    forall x | x in xs ensures x in Items(r) {
      assert x in multiset(xs);
    }
    if forall x :: x in xs ==> le(h[1], x) {
      FillingKeepsRoot(le, h, xs);
    }
  }

  lemma {:induction false} FilledSize<T>(le: Compare<T>, h: seq<T>, xs: seq<T>)
    requires h != []
    ensures |FilledIntended(le, h, xs)| == |h| + |xs|
    decreases |xs|
  {
    if xs != [] {
      FilledSize(le, PushedIntended(le, h, xs[0]), xs[1..]);
    }
  }

  // Popping until the heap is empty.
  function Drained<T>(le: Compare<T>, h: seq<T>): seq<T>
    requires h != []
    decreases |h|
  {
    if |h| == 1 then [] else [h[1]] + Drained(le, Popped(le, h))
  }

  ghost predicate InOrder<T>(le: Compare<T>, s: seq<T>) {
    forall i, j :: 0 <= i < j < |s| ==> le(s[i], s[j])
  }

  lemma PrependInOrder<T(!new)>(le: Compare<T>, x: T, s: seq<T>)
    requires InOrder(le, s) && forall y :: y in multiset(s) ==> le(x, y)
    ensures InOrder(le, [x] + s)
    ensures multiset([x] + s) == multiset{x} + multiset(s)
  {
    assert forall j :: 0 <= j < |s| ==> s[j] in multiset(s);
  }

  // As written and on any array, heap or not, draining gives up everything.
  lemma {:induction false} DrainReturnsAll<T(!new)>(le: Compare<T>, h: seq<T>)
    requires TotalPreorder(le) && h != []
    ensures multiset(Drained(le, h)) == Items(h)
    decreases |h|
  {
    if |h| > 1 {
      RemovalTakesOneIff(le, h, 1);
      DrainReturnsAll(le, Popped(le, h));
    }
  }

  // A heap drains in priority order.
  lemma {:induction false} DrainIsSorted<T(!new)>(le: Compare<T>, h: seq<T>)
    requires TotalPreorder(le) && h != [] && HeapOrdered(le, h)
    ensures InOrder(le, Drained(le, h)) && multiset(Drained(le, h)) == Items(h)
    decreases |h|
  {
    if |h| > 1 {
      var g := Popped(le, h);
      RemovalKeepsHeapIff(le, h, 1);
      RemovalTakesOneIff(le, h, 1);
      DrainIsSorted(le, g);
      RootOutranksAll(le, h);
      PrependInOrder(le, h[1], Drained(le, g));
    }
  }

  function FilledIntended<T>(le: Compare<T>, h: seq<T>, xs: seq<T>): (r: seq<T>)
    requires h != []
    ensures r != []
    decreases |xs|
  {
    if xs == [] then h else FilledIntended(le, PushedIntended(le, h, xs[0]), xs[1..])
  }

  lemma {:induction false} FillingKeepsHeap<T(!new)>(le: Compare<T>, h: seq<T>, xs: seq<T>)
    requires TotalPreorder(le) && h != [] && HeapOrdered(le, h)
    ensures HeapOrdered(le, FilledIntended(le, h, xs))
    ensures Items(FilledIntended(le, h, xs)) == Items(h) + multiset(xs)
    decreases |xs|
  {
    if xs != [] {
      PushKeepsHeapIff(le, h, xs[0]);
      PushAddsOne(le, h, xs[0]);
      FillingKeepsHeap(le, PushedIntended(le, h, xs[0]), xs[1..]);
      assert xs == [xs[0]] + xs[1..];
    }
  }

  // With the saved element compared, whatever is pushed comes out again, in
  // priority order.
  lemma IntendedQueueSorts<T(!new)>(le: Compare<T>, unused: T, xs: seq<T>)
    requires TotalPreorder(le)
    ensures InOrder(le, Drained(le, FilledIntended(le, [unused], xs)))
    ensures multiset(Drained(le, FilledIntended(le, [unused], xs))) == multiset(xs)
  {
    FillingKeepsHeap(le, [unused], xs);
    DrainIsSorted(le, FilledIntended(le, [unused], xs));
  }

  // ----- Whole runs of pushes and pops -----

  datatype QueueOp<T> = Push(x: T) | Pop

  // Popping an empty heap does nothing.
  function QueueStep<T>(le: Compare<T>, h: seq<T>, op: QueueOp<T>): (r: seq<T>)
    requires h != []
    ensures r != []
  {
    match op
    case Push(x) => Pushed(le, h, x)
    case Pop => if |h| == 1 then h else Popped(le, h)
  }

  // The guard of PushKeepsHeapIff, at every push of the run.
  ghost predicate PushesFit<T>(le: Compare<T>, h: seq<T>, ops: seq<QueueOp<T>>)
    requires h != []
    decreases |ops|
  {
    ops != [] ==>
      && (ops[0].Push? ==> |h| < 4 || le(h[|h| / 4], ops[0].x))
      && PushesFit(le, QueueStep(le, h, ops[0]), ops[1..])
  }

  ghost predicate AlwaysHeap<T>(le: Compare<T>, h: seq<T>, ops: seq<QueueOp<T>>)
    requires h != []
    decreases |ops|
  {
    HeapOrdered(le, h) && (ops != [] ==> AlwaysHeap(le, QueueStep(le, h, ops[0]), ops[1..]))
  }

  // Over any run of pushes and pops the array is a heap throughout exactly when
  // every push meets the guard. Then, by RootOutranksAll, every pop takes an
  // element of the highest priority.
  lemma {:induction false} RunStaysHeapIff<T(!new)>(le: Compare<T>, h: seq<T>, ops: seq<QueueOp<T>>)
    requires TotalPreorder(le) && h != [] && HeapOrdered(le, h)
    ensures AlwaysHeap(le, h, ops) <==> PushesFit(le, h, ops)
    decreases |ops|
  {
    if ops != [] {
      var g := QueueStep(le, h, ops[0]);
      match ops[0] {
        case Push(x) => PushKeepsHeapIff(le, h, x);
        case Pop => if |h| > 1 { RemovalKeepsHeapIff(le, h, 1); }
      }
      if HeapOrdered(le, g) {
        RunStaysHeapIff(le, g, ops[1..]);
      }
    }
  }

  // What one operation puts in, and what it takes out.
  function PutIn<T>(op: QueueOp<T>): seq<T> {
    if op.Push? then [op.x] else []
  }

  function TakenOut<T>(h: seq<T>, op: QueueOp<T>): seq<T>
    requires h != []
  {
    if op.Pop? && |h| > 1 then [h[1]] else []
  }

  // A run, and what its pops return.
  function QueueRun<T>(le: Compare<T>, h: seq<T>, ops: seq<QueueOp<T>>): (r: (seq<T>, seq<T>))
    requires h != []
    ensures r.0 != []
    decreases |ops|
  {
    if ops == [] then (h, [])
    else
      var (g, popped) := QueueRun(le, QueueStep(le, h, ops[0]), ops[1..]);
      (g, TakenOut(h, ops[0]) + popped)
  }

  function PushedIn<T>(ops: seq<QueueOp<T>>): seq<T> {
    if ops == [] then [] else PutIn(ops[0]) + PushedIn(ops[1..])
  }

  lemma StepConservesItems<T(!new)>(le: Compare<T>, h: seq<T>, op: QueueOp<T>)
    requires TotalPreorder(le) && h != []
    ensures Items(h) + multiset(PutIn(op)) == multiset(TakenOut(h, op)) + Items(QueueStep(le, h, op))
  {
    match op
    case Push(x) => PushAddsOne(le, h, x);
    case Pop => if |h| > 1 { RemovalTakesOneIff(le, h, 1); }
  }

  // As written, over any run of pushes and pops on any array, heap or not:
  // what was there and what was pushed is popped or still there.
  lemma {:induction false} RunConservesItems<T(!new)>(le: Compare<T>, h: seq<T>, ops: seq<QueueOp<T>>)
    requires TotalPreorder(le) && h != []
    ensures Items(h) + multiset(PushedIn(ops)) ==
            multiset(QueueRun(le, h, ops).1) + Items(QueueRun(le, h, ops).0)
    decreases |ops|
  {
    if ops != [] {
      var op, rest := ops[0], ops[1..];
      var g := QueueStep(le, h, op);
      StepConservesItems(le, h, op);
      RunConservesItems(le, g, rest);
      var (final, popped) := QueueRun(le, g, rest);
      AppendedItems(PutIn(op), PushedIn(rest));
      AppendedItems(TakenOut(h, op), popped);
      Balance(Items(h), multiset(PutIn(op)), multiset(TakenOut(h, op)), Items(g), multiset(PushedIn(rest)),
              multiset(popped), Items(final));
    }
  }

  lemma Balance<T(!new)>(had: multiset<T>, came: multiset<T>, went: multiset<T>, kept: multiset<T>,
                         later: multiset<T>, popped: multiset<T>, left: multiset<T>)
    requires had + came == went + kept && kept + later == popped + left
    ensures had + (came + later) == (went + popped) + left
  {
    forall x ensures (had + (came + later))[x] == ((went + popped) + left)[x] {
      assert (had + came)[x] == (went + kept)[x] && (kept + later)[x] == (popped + left)[x];
    }
  }

  lemma AppendedItems<T>(s: seq<T>, t: seq<T>)
    ensures multiset(s + t) == multiset(s) + multiset(t)
  {
  }

  // ----- Where the code as written falls short -----

  predicate AtMost(a: int, b: int) { a <= b }

  // Pushing 5, 4, 3, 2 leaves 3 above 2, so that 3 is served first.
  lemma TwoStaysBelowThree()
    ensures Pushed(AtMost, Pushed(AtMost, Pushed(AtMost, Pushed(AtMost, [0], 5), 4), 3), 2) == [0, 3, 2, 4, 5]
    ensures !HeapOrdered(AtMost, [0, 3, 2, 4, 5])
  {
    assert Pushed(AtMost, [0], 5) == [0, 5];
    assert Pushed(AtMost, [0, 5], 4) == [0, 4, 5] by {
      assert [0, 5] + [4] == [0, 5, 4];
      assert [0, 5, 4][2 := 5] == [0, 5, 5];
    }
    assert Pushed(AtMost, [0, 4, 5], 3) == [0, 3, 5, 4] by {
      assert [0, 4, 5] + [3] == [0, 4, 5, 3];
      assert [0, 4, 5, 3][3 := 4] == [0, 4, 5, 4];
    }
    assert Pushed(AtMost, [0, 3, 5, 4], 2) == [0, 3, 2, 4, 5] by {
      assert [0, 3, 5, 4] + [2] == [0, 3, 5, 4, 2];
      assert [0, 3, 5, 4, 2][4 := 5] == [0, 3, 5, 4, 5];
    }
    var h := [0, 3, 2, 4, 5];
    assert !AtMost(h[2 / 2], h[2]);
  }
}
