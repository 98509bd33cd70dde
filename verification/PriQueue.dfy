// The priority queue of pri_queue.c on its array.
module PriQueue {
  import opened Common
  import opened HeapModel

  lemma {:induction false} RisePrefix<T>(le: Compare<T>, h: seq<T>, m: nat, i: nat, x: T)
    requires 1 <= i < m <= |h|
    ensures Rise(le, h, i, x)[..m] == Rise(le, h[..m], i, x)
    decreases i
  {
    if i != 1 && !le(h[i / 2], h[i]) {
      RisePrefix(le, h[i := h[i / 2]], m, i / 2, x);
      assert h[i := h[i / 2]][..m] == h[..m][i := h[i / 2]];
    } else {
      assert h[i := x][..m] == h[..m][i := x];
    }
  }

  lemma SinkStops<T>(le: Compare<T>, h: seq<T>, i: nat, x: T)
    requires 1 <= i < |h| && (2 * i >= |h| || le(x, h[Winner(le, h, i)]))
    ensures Sink(le, h, i, x) == (h, i)
  {
  }

  lemma SinkMoves<T>(le: Compare<T>, h: seq<T>, i: nat, w: nat, x: T, g: seq<T>)
    requires 1 <= i && 2 * i < |h| && w == Winner(le, h, i) && !le(x, h[w]) && g == h[i := h[w]]
    ensures Sink(le, h, i, x) == Sink(le, g, w, x)
  {
  }

  lemma RemovedUnfolds<T>(le: Compare<T>, h: seq<T>, i: nat, m: nat, x: T, front: seq<T>, g: seq<T>, p: nat)
    requires 1 <= i < m == |h| - 1 && x == h[m] && front == h[..m] && (g, p) == Sink(le, front, i, x)
    ensures Removed(le, h, i) == Rise(le, g[p := x], p, x)
  {
  }

  // The tail `x` in the hole of the array `a`, risen, for an inner slot and for
  // the last one.
  lemma RemovedInside<T>(le: Compare<T>, h: seq<T>, i: nat, m: nat, x: T, g: seq<T>, p: nat, a: seq<T>)
    requires 1 <= i < m == |h| - 1 && x == h[m] && (g, p) == Sink(le, h[..m], i, x)
    requires m <= |a| && a[..m] == g[p := x]
    ensures Rise(le, a, p, x)[..m] == Removed(le, h, i)
  {
    RemovedUnfolds(le, h, i, m, x, h[..m], g, p);
    RisePrefix(le, a, m, p, x);
  }

  lemma RemovedLast<T>(le: Compare<T>, h: seq<T>, m: nat, x: T, a: seq<T>)
    requires 1 <= m == |h| - 1 < |a| && x == h[m] && a[..m + 1] == h
    ensures Rise(le, a, m, x)[..m] == Removed(le, h, m)
  {
    RisePrefix(le, a, m + 1, m, x);
    assert Rise(le, a, m, x)[..m] == Rise(le, a, m, x)[..m + 1][..m];
  }

  class PriQueue<T(0)> {
    var heapMem: array<T>
    var curSize: nat
    const maxSize: nat
    const le: Compare<T>

    ghost predicate Valid()
      reads this
    {
      heapMem.Length == maxSize + 1 && curSize <= maxSize
    }

    // The array up to the last element, with the unused slot 0.
    ghost function Heap(): seq<T>
      requires Valid()
      reads this, heapMem
    {
      heapMem[..curSize + 1]
    }

    // pri_queue_create with an initial size its check accepts.
    constructor (initialSize: nat, cb: Compare<T>)
      requires initialSize > 0
      ensures Valid() && |Heap()| == 1 && maxSize == initialSize && le == cb && fresh(heapMem)
    {
      heapMem := new T[initialSize + 1];
      curSize, maxSize, le := 0, initialSize, cb;
    }

    // __heap_sort
    method HeapSort(index: nat)
      requires 1 <= index < heapMem.Length
      modifies heapMem
      ensures heapMem[..] == Rise(le, old(heapMem[..]), index, old(heapMem[index]))
    {
      var tmpElement := heapMem[index];
      var i := index;
      assert heapMem[..][index := tmpElement] == heapMem[..];
      while i > 1
        invariant 1 <= i <= index
        invariant Rise(le, old(heapMem[..]), index, tmpElement) == Rise(le, heapMem[..], i, tmpElement)
      {
        var parentIndex := i / 2;
        if le(heapMem[parentIndex], heapMem[i]) {
          break;
        }
        heapMem[i] := heapMem[parentIndex];
        i := parentIndex;
      }
      heapMem[i] := tmpElement;
    }

    // __heap_push. Growth never happens: a full heap rejects the element.
    method HeapPush(data: T) returns (err: Errno)
      requires Valid()
      modifies this`curSize, heapMem
      ensures Valid()
      ensures old(curSize) == maxSize ==> err == ErrResource && Heap() == old(Heap())
      ensures old(curSize) < maxSize ==> err == Ok && Heap() == Pushed(le, old(Heap()), data)
    {
      if curSize >= maxSize {
        return ErrResource;
      }
      ghost var h := Heap();
      curSize := curSize + 1;
      heapMem[curSize] := data;
      assert heapMem[..curSize + 1] == h + [data];
      RisePrefix(le, heapMem[..], curSize + 1, curSize, data);
      HeapSort(curSize);
      return Ok;
    }

    // pri_queue_push: after a rejection the push is tried again, with the same
    // limit.
    method Push(data: T) returns (err: Errno)
      requires Valid()
      modifies this`curSize, heapMem
      ensures Valid()
      ensures old(curSize) == maxSize ==> err == ErrResource && Heap() == old(Heap())
      ensures old(curSize) < maxSize ==> err == Ok && Heap() == Pushed(le, old(Heap()), data)
    {
      err := HeapPush(data);
      if err == ErrResource {
        err := HeapPush(data);
      }
    }

    // pri_queue_peek
    method Peek() returns (err: Errno, data: Option<T>)
      requires Valid()
      ensures curSize == 0 ==> err == ErrResource && data == None
      ensures curSize > 0 ==> err == Ok && data == Some(Heap()[1])
    {
      if curSize > 0 {
        return Ok, Some(heapMem[1]);
      }
      return ErrResource, None;
    }

    // The child that the first loop of __heap_remove moves up.
    method BetterChild(pos: nat) returns (winner: nat)
      requires Valid() && 1 <= pos <= curSize / 2
      ensures winner == Winner(le, Heap(), pos)
    {
      var left, right := pos * 2, pos * 2 + 1;
      winner := left;
      if left != curSize {
        if le(heapMem[right], heapMem[left]) {
          winner := right;
        }
      }
    }

    // The first loop of __heap_remove: the hole moves down from `index`.
    method SiftDown(index: nat, tail: T) returns (pos: nat)
      requires Valid() && 1 <= index <= curSize
      modifies heapMem
      ensures (Heap(), pos) == Sink(le, old(Heap()), index, tail)
    {
      pos := index;
      ghost var h := Heap();
      while pos <= curSize / 2
        invariant 1 <= pos <= curSize && h == Heap()
        invariant Sink(le, old(Heap()), index, tail) == Sink(le, h, pos, tail)
        decreases curSize - pos
      {
        var winner := BetterChild(pos);
        if le(tail, heapMem[winner]) {
          break;
        }
        heapMem[pos] := heapMem[winner];
        SinkMoves(le, h, pos, winner, tail, Heap());
        h, pos := Heap(), winner;
      }
      SinkStops(le, h, pos, tail);
    }

    // __heap_remove
    method HeapRemove(index: int) returns (data: Option<T>)
      requires Valid()
      modifies this`curSize, heapMem
      ensures Valid()
      ensures !(1 <= index <= old(curSize)) ==> data == None && Heap() == old(Heap())
      ensures 1 <= index <= old(curSize) ==>
                data == Some(old(Heap())[index]) && Heap() == Removed(le, old(Heap()), index)
    {
      if curSize == 0 || index > curSize || index <= 0 {
        return None;
      }
      ghost var h := Heap();
      var removed, tail := heapMem[index], heapMem[curSize];
      curSize := curSize - 1;
      ghost var m := curSize + 1;
      assert Heap() == h[..m];
      var pos := index;
      if index <= curSize {
        pos := SiftDown(index, tail);
      }
      Fill(pos, tail, h, index);
      return Some(removed);
    }

    // The end of __heap_remove: the tail goes into the hole and up from there.
    method Fill(pos: nat, tail: T, ghost h: seq<T>, ghost index: nat)
      requires Valid() && curSize < maxSize && |h| == curSize + 2 && tail == h[curSize + 1] && 1 <= index <= curSize + 1
      requires index <= curSize ==> (Heap(), pos) == Sink(le, h[..curSize + 1], index, tail)
      requires index == curSize + 1 ==> pos == index && Heap() == h[..curSize + 1]
      modifies heapMem
      ensures Heap() == Removed(le, h, index)
    {
      ghost var g, m := Heap(), curSize + 1;
      heapMem[pos] := tail;
      ghost var a := heapMem[..];
      if index < m {
        assert a[..m] == g[pos := tail];
        RemovedInside(le, h, index, m, tail, g, pos, a);
      } else {
        assert a[..m + 1] == h;
        RemovedLast(le, h, m, tail, a);
      }
      HeapSort(pos);
    }

    // The non-blocking path of __queue_pop.
    method PopTryWait() returns (err: Errno, data: Option<T>)
      requires Valid()
      modifies this`curSize, heapMem
      ensures Valid()
      ensures old(curSize) == 0 ==> err == ErrResource && data == None && Heap() == old(Heap())
      ensures old(curSize) > 0 ==> err == Ok && data == Some(old(Heap())[1]) && Heap() == Popped(le, old(Heap()))
    {
      if curSize == 0 {
        return ErrResource, None;
      }
      data := HeapRemove(1);
      return Ok, data;
    }
  }
}
