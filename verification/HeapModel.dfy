// The heap of pri_queue.c as functions on its array, which is 1-based: slot 0
// exists and is never used, so a heap of n elements is a sequence of n + 1.
// `le(a, b)` is the comparator: `a` has at least the priority of `b`.
module HeapModel {

  type Compare<!T> = (T, T) -> bool

  ghost predicate TotalPreorder<T(!new)>(le: Compare<T>) {
    && (forall a, b :: le(a, b) || le(b, a))
    && (forall a, b, c :: le(a, b) && le(b, c) ==> le(a, c))
  }

  ghost predicate HeapOrdered<T>(le: Compare<T>, h: seq<T>) {
    forall j :: 2 <= j < |h| ==> le(h[j / 2], h[j])
  }

  function Items<T>(h: seq<T>): multiset<T>
    requires h != []
  {
    multiset(h[1..])
  }

  // ----- The operations, as written -----

  // __heap_sort from the hole `i` with `x` saved: the comparison reads slot
  // `i`, which after the first move holds the old parent and not `x`.
  function Rise<T>(le: Compare<T>, h: seq<T>, i: nat, x: T): (r: seq<T>)
    requires 1 <= i < |h|
    ensures |r| == |h|
    decreases i
  {
    if i == 1 || le(h[i / 2], h[i]) then h[i := x] else Rise(le, h[i := h[i / 2]], i / 2, x)
  }

  // __heap_push on a heap with room
  function Pushed<T>(le: Compare<T>, h: seq<T>, x: T): (r: seq<T>)
    requires h != []
    ensures |r| == |h| + 1
  {
    Rise(le, h + [x], |h|, x)
  }

  // The child with the higher priority; the left one on a tie unless the right
  // one compares no worse.
  function Winner<T>(le: Compare<T>, h: seq<T>, i: nat): (w: nat)
    requires 1 <= i && 2 * i < |h|
    ensures w / 2 == i && i < w < |h|
  {
    if 2 * i + 1 < |h| && le(h[2 * i + 1], h[2 * i]) then 2 * i + 1 else 2 * i
  }

  // The first loop of __heap_remove: the hole moves down until `x` fits.
  function Sink<T>(le: Compare<T>, h: seq<T>, i: nat, x: T): (r: (seq<T>, nat))
    requires 1 <= i < |h|
    ensures |r.0| == |h| && i <= r.1 < |h|
    decreases |h| - i
  {
    if 2 * i >= |h| || le(x, h[Winner(le, h, i)]) then (h, i)
    else Sink(le, h[i := h[Winner(le, h, i)]], Winner(le, h, i), x)
  }

  // __heap_remove of slot `i`. When `i` is the last slot the tail is written
  // back where it was, outside the heap, and still sent up.
  function Removed<T>(le: Compare<T>, h: seq<T>, i: nat): (r: seq<T>)
    requires 1 <= i < |h|
    ensures |r| == |h| - 1
  {
    var last := |h| - 1;
    if i == last then Rise(le, h, last, h[last])[..last]
    else
      var (g, p) := Sink(le, h[..last], i, h[last]);
      Rise(le, g[p := h[last]], p, h[last])
  }

  // __heap_pop
  function Popped<T>(le: Compare<T>, h: seq<T>): (r: seq<T>)
    requires |h| > 1
    ensures |r| == |h| - 1
  {
    Removed(le, h, 1)
  }

  // ----- The sift-up that the comments describe: compare the saved element -----

  function RiseIntended<T>(le: Compare<T>, h: seq<T>, i: nat, x: T): (r: seq<T>)
    requires 1 <= i < |h|
    ensures |r| == |h|
    decreases i
  {
    if i == 1 || le(h[i / 2], x) then h[i := x] else RiseIntended(le, h[i := h[i / 2]], i / 2, x)
  }

  function PushedIntended<T>(le: Compare<T>, h: seq<T>, x: T): (r: seq<T>)
    requires h != []
    ensures |r| == |h| + 1
  {
    RiseIntended(le, h + [x], |h|, x)
  }

  function RemovedIntended<T>(le: Compare<T>, h: seq<T>, i: nat): (r: seq<T>)
    requires 1 <= i < |h|
    ensures |r| == |h| - 1
  {
    var last := |h| - 1;
    if i == last then h[..last]
    else
      var (g, p) := Sink(le, h[..last], i, h[last]);
      RiseIntended(le, g[p := h[last]], p, h[last])
  }

  // ----- Nothing is lost -----

  lemma MoveHole<T>(h: seq<T>, i: nat, k: nat, x: T)
    requires i < |h| && k < |h| && i != k
    ensures multiset(h[i := h[k]][k := x]) == multiset(h[i := x])
  {
    var g := h[i := h[k]];
    assert multiset(g) == multiset(h) - multiset{h[i]} + multiset{h[k]};
    assert multiset(g[k := x]) == multiset(g) - multiset{g[k]} + multiset{x};
    assert multiset(h[i := x]) == multiset(h) - multiset{h[i]} + multiset{x};
  }

  lemma {:induction false} RiseKeepsItems<T>(le: Compare<T>, h: seq<T>, i: nat, x: T)
    requires 1 <= i < |h|
    ensures multiset(Rise(le, h, i, x)) == multiset(h[i := x])
    ensures Rise(le, h, i, x)[0] == h[0]
    ensures forall j :: i < j < |h| ==> Rise(le, h, i, x)[j] == h[j]
    decreases i
  {
    if i != 1 && !le(h[i / 2], h[i]) {
      RiseKeepsItems(le, h[i := h[i / 2]], i / 2, x);
      MoveHole(h, i, i / 2, x);
    }
  }

  lemma {:induction false} RiseIntendedKeepsItems<T>(le: Compare<T>, h: seq<T>, i: nat, x: T)
    requires 1 <= i < |h|
    ensures multiset(RiseIntended(le, h, i, x)) == multiset(h[i := x])
    ensures RiseIntended(le, h, i, x)[0] == h[0]
    decreases i
  {
    if i != 1 && !le(h[i / 2], x) {
      RiseIntendedKeepsItems(le, h[i := h[i / 2]], i / 2, x);
      MoveHole(h, i, i / 2, x);
    }
  }

  lemma {:induction false} SinkKeepsItems<T>(le: Compare<T>, h: seq<T>, i: nat, x: T)
    requires 1 <= i < |h|
    ensures multiset(Sink(le, h, i, x).0[Sink(le, h, i, x).1 := x]) == multiset(h[i := x])
    ensures Sink(le, h, i, x).0[0] == h[0]
    decreases |h| - i
  {
    if 2 * i < |h| && !le(x, h[Winner(le, h, i)]) {
      var w := Winner(le, h, i);
      SinkKeepsItems(le, h[i := h[w]], w, x);
      MoveHole(h, i, w, x);
    }
  }

  // Slot 0 stays out of it: what holds of the whole array holds of the items.
  lemma ItemsOf<T(!new)>(h: seq<T>, r: seq<T>, lost: multiset<T>, won: multiset<T>)
    requires h != [] && r != [] && h[0] == r[0]
    requires multiset(h) + won == multiset(r) + lost
    ensures Items(h) + won == Items(r) + lost
  {
    assert h == [h[0]] + h[1..];
    assert r == [r[0]] + r[1..];
    assert multiset(h) == multiset{h[0]} + Items(h);
    assert multiset(r) == multiset{h[0]} + Items(r);
    forall y ensures (Items(h) + won)[y] == (Items(r) + lost)[y] {
      assert (multiset(h) + won)[y] == (multiset(r) + lost)[y];
    }
  }

  // A push, as written or as intended, adds exactly the new element.
  lemma PushAddsOne<T(!new)>(le: Compare<T>, h: seq<T>, x: T)
    requires h != []
    ensures Items(Pushed(le, h, x)) == Items(h) + multiset{x}
    ensures Items(PushedIntended(le, h, x)) == Items(h) + multiset{x}
  {
    var g := h + [x];
    assert g[|h| := x] == g;
    RiseKeepsItems(le, g, |h|, x);
    RiseIntendedKeepsItems(le, g, |h|, x);
    ItemsOf(h, Pushed(le, h, x), multiset{}, multiset{x});
    ItemsOf(h, PushedIntended(le, h, x), multiset{}, multiset{x});
  }

  lemma DropLast<T>(h: seq<T>)
    requires |h| > 1
    ensures multiset(h) == multiset(h[..|h| - 1]) + multiset{h[|h| - 1]}
  {
    assert h == h[..|h| - 1] + [h[|h| - 1]];
  }

  lemma SunkItems<T>(le: Compare<T>, h: seq<T>, i: nat, g: seq<T>, p: nat)
    requires 1 <= i < |h| - 1 && (g, p) == Sink(le, h[..|h| - 1], i, h[|h| - 1])
    ensures multiset(h) == multiset(g[p := h[|h| - 1]]) + multiset{h[i]}
    ensures g[p := h[|h| - 1]][0] == h[0]
  {
    var front, x := h[..|h| - 1], h[|h| - 1];
    SinkKeepsItems(le, front, i, x);
    DropLast(h);
    assert multiset(front[i := x]) == multiset(front) - multiset{h[i]} + multiset{x};
  }

  lemma InnerRemoval<T(!new)>(le: Compare<T>, h: seq<T>, i: nat)
    requires 1 <= i < |h| - 1
    ensures Items(h) == Items(Removed(le, h, i)) + multiset{h[i]}
    ensures Items(h) == Items(RemovedIntended(le, h, i)) + multiset{h[i]}
  {
    var x := h[|h| - 1];
    var (g, p) := Sink(le, h[..|h| - 1], i, x);
    SunkItems(le, h, i, g, p);
    var f := g[p := x];
    assert f[p := x] == f;
    RiseKeepsItems(le, f, p, x);
    RiseIntendedKeepsItems(le, f, p, x);
    ItemsOf(h, Removed(le, h, i), multiset{h[i]}, multiset{});
    ItemsOf(h, RemovedIntended(le, h, i), multiset{h[i]}, multiset{});
  }

  lemma LastRiseItems<T>(le: Compare<T>, h: seq<T>, last: nat, p: nat, r: seq<T>)
    requires 1 <= p < last == |h| - 1 && r == Rise(le, h[last := h[p]], p, h[last])
    ensures multiset(r) == multiset(h) && r[0] == h[0] && r[last] == h[p]
  {
    RiseKeepsItems(le, h[last := h[p]], p, h[last]);
    MoveHole(h, last, p, h[last]);
    assert h[last := h[last]] == h;
  }

  lemma LastRiseUnfolds<T>(le: Compare<T>, h: seq<T>, last: nat, p: nat)
    requires 1 < last == |h| - 1 && p == last / 2 && !le(h[p], h[last])
    ensures Removed(le, h, last) == Rise(le, h[last := h[p]], p, h[last])[..last]
  {
  }

  // Removing the last slot of an array in which it outranks its parent: the
  // parent is moved out of the heap and the element stays.
  lemma ParentIsLost<T(!new)>(le: Compare<T>, h: seq<T>, last: nat, p: nat)
    requires 1 < last == |h| - 1 && p == last / 2 && !le(h[p], h[last])
    ensures Items(h) == Items(Removed(le, h, last)) + multiset{h[p]}
  {
    var r := Rise(le, h[last := h[p]], p, h[last]);
    LastRiseItems(le, h, last, p, r);
    LastRiseUnfolds(le, h, last, p);
    DropLast(r);
    ItemsOf(h, r[..last], multiset{h[p]}, multiset{});
  }

  // A removal takes out exactly the element at `i`, unless `i` is the last slot
  // and outranks its parent.
  lemma RemovalTakesOneIff<T(!new)>(le: Compare<T>, h: seq<T>, i: nat)
    requires TotalPreorder(le) && 1 <= i < |h|
    ensures Items(h) == Items(Removed(le, h, i)) + multiset{h[i]} <==>
            i < |h| - 1 || i == 1 || le(h[i / 2], h[i])
    ensures Items(h) == Items(RemovedIntended(le, h, i)) + multiset{h[i]}
  {
    var last := |h| - 1;
    if i < last {
      InnerRemoval(le, h, i);
    } else {
      DropLast(h);
      ItemsOf(h, h[..last], multiset{h[last]}, multiset{});
      assert h[last := h[last]] == h;
      if i > 1 && !le(h[i / 2], h[i]) {
        ParentIsLost(le, h, last, last / 2);
        var lost, x := h[i / 2], h[i];
        assert lost != x;
        assert Items(h)[x] == Items(Removed(le, h, i))[x];
      }
    }
  }
}
