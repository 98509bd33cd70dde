// The chained table of hash.c, with its free list of removed nodes.
module HashTable {
  import opened Common
  import opened HashModel
  import opened HashTraversal

  class Entry<V> {
    var hash: uint32
    var key: string
    var value: Option<V>
    var next: Entry?<V>

    // zero_alloc
    constructor ()
      ensures value == None && next == null
    {
      hash, key, value, next := 0, "", None, null;
    }

    // strncpy with a limit of 30 into a buffer that is zero beyond it.
    method Rename(hash: uint32, key: string)
      modifies this`next, this`hash, this`key
      ensures next == null && this.hash == hash && this.key == StoredKey(key)
    {
      next := null;
      this.hash := hash;
      this.key := StoredKey(key);
    }
  }

  // A pointer to a pointer to an entry: an array slot or some entry's `next`.
  datatype Link<V> = Slot(index: nat) | NextOf(entry: Entry<V>)

  // From `head`, `next` runs through `es` and ends in null.
  ghost predicate Linked<V>(head: Entry?<V>, es: seq<Entry<V>>)
    reads es
  {
    && Distinct(es)
    && head == (if es == [] then null else es[0])
    && forall i {:trigger es[i].next} :: 0 <= i < |es| ==> es[i].next == if i + 1 < |es| then es[i + 1] else null
  }

  ghost predicate Holds<V>(es: seq<Entry<V>>, cs: seq<Cell<V>>)
    reads es
  {
    && |es| == |cs|
    && forall i :: 0 <= i < |es| ==>
         es[i].hash == cs[i].hash && es[i].key == cs[i].key && es[i].value == Some(cs[i].value)
  }

  // Bucket `b` of `n`: its entries are linked from `head` and hold `cs`,
  // whose hashes all select `b`.
  ghost predicate ChainOk<V>(head: Entry?<V>, es: seq<Entry<V>>, cs: seq<Cell<V>>, b: nat, n: nat)
    requires n > 0
    reads es
  {
    && Linked(head, es)
    && Holds(es, cs)
    && forall i :: 0 <= i < |cs| ==> cs[i].hash % n == b
  }

  lemma ExtendChain<V>(head: Entry?<V>, es: seq<Entry<V>>, cs: seq<Cell<V>>, b: nat, n: nat,
                       e: Entry<V>, cell: Cell<V>)
    requires Distinct(es) && e !in es && Holds(es, cs) && Holds([e], [cell]) && e.next == null
    requires head == if es == [] then e else es[0]
    requires forall i {:trigger es[i].next} :: 0 <= i < |es| ==> es[i].next == if i + 1 < |es| then es[i + 1] else e
    requires n > 0 && cell.hash % n == b && forall i :: 0 <= i < |cs| ==> cs[i].hash % n == b
    ensures ChainOk(head, es + [e], cs + [cell], b, n)
  {
  }

  lemma ShrinkChain<V>(head: Entry?<V>, es: seq<Entry<V>>, cs: seq<Cell<V>>, b: nat, n: nat, i: nat)
    requires Distinct(es) && Holds(es, cs) && i < |es|
    requires head == if i > 0 then es[0] else if |es| > 1 then es[1] else null
    requires forall j {:trigger es[j].next} :: 0 <= j < |es| ==>
               es[j].next == (var k := if j + 1 == i then i + 1 else j + 1; if k < |es| then es[k] else null)
    requires n > 0 && forall j :: 0 <= j < |cs| ==> cs[j].hash % n == b
    ensures ChainOk(head, RemoveAt(es, i), RemoveAt(cs, i), b, n)
  {
    RemoveKeepsDistinct(es, i);
    var r := RemoveAt(es, i);
    forall j | 0 <= j < |r| ensures r[j].next == if j + 1 < |r| then r[j + 1] else null {
      assert r[j] == es[if j < i then j else j + 1];
    }
  }

  // Two buckets share no entry: an entry's hash says where it hangs.
  lemma ChainsDisjoint<V>(p: Entry?<V>, es: seq<Entry<V>>, cs: seq<Cell<V>>, b: nat, i: nat,
                          p': Entry?<V>, es': seq<Entry<V>>, cs': seq<Cell<V>>, b': nat, n: nat)
    requires n > 0 && b != b' && ChainOk(p, es, cs, b, n) && ChainOk(p', es', cs', b', n) && i < |es|
    ensures es[i] !in es'
  {
    assert cs[i].hash % n == b;
    assert forall k :: 0 <= k < |es'| ==> cs'[k].hash % n == b';
  }

  // ----- Growth: the entries moved so far, in the array being built -----

  ghost predicate Rebuilt<V>(arr: array<Entry?<V>>, chains: seq<seq<Entry<V>>>, cells: Buckets<V>, done: set<Entry<V>>)
    reads arr, done
  {
    && arr.Length == |chains| == |cells|
    && (forall j, k :: 0 <= j < |chains| && 0 <= k < |chains[j]| ==> chains[j][k] in done)
    && (forall j :: 0 <= j < |chains| ==> ChainOk(arr[j], chains[j], cells[j], j, |cells|))
  }

  lemma NoneMoved<V>(arr: array<Entry?<V>>, chains: seq<seq<Entry<V>>>, t: Buckets<V>)
    requires t != [] && arr.Length == |chains| == 2 * |t|
    requires forall j :: 0 <= j < arr.Length ==> arr[j] == null && chains[j] == []
    ensures Rebuilt(arr, chains, Moved(t, 0, 0), {})
  {
    MovedAll(t);
  }

  lemma PrependChain<V>(head: Entry?<V>, es: seq<Entry<V>>, cs: seq<Cell<V>>, b: nat, n: nat,
                        e: Entry<V>, cell: Cell<V>)
    requires n > 0 && ChainOk(head, es, cs, b, n) && e !in es && e.next == head
    requires Holds([e], [cell]) && cell.hash % n == b
    ensures ChainOk(e, [e] + es, [cell] + cs, b, n)
  {
  }

  // One entry goes to the front of its new chain: it points to the old head,
  // and the array slot to it.
  method MoveEntry<V>(e: Entry<V>, arr: array<Entry?<V>>, index: nat, ghost cell: Cell<V>,
                      ghost chains: seq<seq<Entry<V>>>, ghost cells: Buckets<V>, ghost done: set<Entry<V>>)
    requires Rebuilt(arr, chains, cells, done) && e !in done && Holds([e], [cell])
    requires index < arr.Length && cell.hash % arr.Length == index
    modifies arr, e`next
    ensures Rebuilt(arr, chains[index := [e] + chains[index]], cells[index := [cell] + cells[index]], done + {e})
  {
    ghost var head := arr[index];
    e.next := arr[index];
    arr[index] := e;
    PrependChain(head, chains[index], cells[index], index, arr.Length, e, cell);
    ghost var chains', cells' := chains[index := [e] + chains[index]], cells[index := [cell] + cells[index]];
    forall j | 0 <= j < |chains| ensures ChainOk(arr[j], chains'[j], cells'[j], j, |cells|) {
      assert j != index ==> old(ChainOk(arr[j], chains[j], cells[j], j, |cells|));
    }
  }

  // What is left of chain `es` from position `p` on, none of it moved yet.
  ghost predicate Remains<V>(entry: Entry?<V>, es: seq<Entry<V>>, p: nat, done: set<Entry<V>>)
    requires p <= |es|
    reads es
  {
    && entry == (if p < |es| then es[p] else null)
    && Distinct(es)
    && (forall q {:trigger es[q].next} :: p <= q < |es| ==> es[q].next == if q + 1 < |es| then es[q + 1] else null)
    && (forall q :: p <= q < |es| ==> es[q] !in done)
  }

  // One pass of the inner loop of __expand_array, on the chain `es` of
  // bucket `i`.
  method MoveHead<V>(entry: Entry<V>, arr: array<Entry?<V>>, newMax: nat, ghost es: seq<Entry<V>>, ghost t: Buckets<V>,
                     ghost i: nat, ghost p: nat, ghost chains: seq<seq<Entry<V>>>, ghost done: set<Entry<V>>)
    returns (next: Entry?<V>, ghost chains': seq<seq<Entry<V>>>)
    requires Placed(t) && i < |t| && arr.Length == newMax + 1 == 2 * |t| && IsPow2(newMax + 1)
    requires Holds(es, t[i]) && p < |es| && Remains(entry, es, p, done)
    requires Rebuilt(arr, chains, Moved(t, i, p), done)
    modifies arr, es`next
    ensures Remains(next, es, p + 1, done + {entry})
    ensures Rebuilt(arr, chains', Moved(t, i, p + 1), done + {entry})
  {
    next := entry.next;
    MaskIsMod(entry.hash, newMax + 1);
    var index := BitAnd(entry.hash, newMax);
    MoveNext(t, i, p);
    MoveEntry(entry, arr, index, t[i][p], chains, Moved(t, i, p), done);
    chains' := chains[index := [entry] + chains[index]];
  }

  method MoveChain<V>(head: Entry?<V>, arr: array<Entry?<V>>, newMax: nat, ghost es: seq<Entry<V>>, ghost t: Buckets<V>,
                      ghost i: nat, ghost chains: seq<seq<Entry<V>>>, ghost done: set<Entry<V>>)
    returns (ghost chains': seq<seq<Entry<V>>>, ghost done': set<Entry<V>>)
    requires Placed(t) && i < |t| && arr.Length == newMax + 1 == 2 * |t| && IsPow2(newMax + 1)
    requires Holds(es, t[i]) && Remains(head, es, 0, done)
    requires Rebuilt(arr, chains, Moved(t, i, 0), done)
    modifies arr, es`next
    ensures Rebuilt(arr, chains', Moved(t, i + 1, 0), done')
    ensures forall x :: x in done' ==> x in done || x in es
  {
    var entry := head;
    ghost var p := 0;
    chains', done' := chains, done;
    while entry != null
      invariant p <= |es| && Holds(es, t[i]) && Remains(entry, es, p, done')
      invariant Rebuilt(arr, chains', Moved(t, i, p), done')
      invariant forall x :: x in done' ==> x in done || x in es
      decreases |es| - p
    {
      ghost var e := es[p];
      entry, chains' := MoveHead(entry, arr, newMax, es, t, i, p, chains', done');
      done' := done' + {e};
      p := p + 1;
    }
    MovedBucket(t, i);
  }

  // No two buckets share an entry.
  ghost predicate Apart<V>(chains: seq<seq<Entry<V>>>) {
    forall b, i, b' :: 0 <= b < |chains| && 0 <= i < |chains[b]| && 0 <= b' < |chains| && b' != b ==>
      chains[b][i] !in chains[b']
  }

  ghost predicate Unmoved<V>(head: Entry?<V>, es: seq<Entry<V>>, cs: seq<Cell<V>>, b: nat, n: nat, done: set<Entry<V>>)
    requires n > 0
    reads es
  {
    ChainOk(head, es, cs, b, n) && forall e :: e in es ==> e !in done
  }

  // The buckets from `i` on have not been touched.
  ghost predicate Untouched<V>(old_: array<Entry?<V>>, chains: seq<seq<Entry<V>>>, t: Buckets<V>, i: nat,
                               live: set<Entry<V>>, done: set<Entry<V>>)
    reads old_, live
  {
    && old_.Length == |chains| == |t|
    && (forall b, k :: 0 <= b < |chains| && 0 <= k < |chains[b]| ==> chains[b][k] in live)
    && (forall b :: i <= b < |chains| ==> Unmoved(old_[b], chains[b], t[b], b, |t|, done))
  }

  // One pass of the outer loop of __expand_array.
  method MoveBucket<V>(old_: array<Entry?<V>>, i: nat, arr: array<Entry?<V>>, newMax: nat,
                       ghost chains: seq<seq<Entry<V>>>, ghost t: Buckets<V>, ghost live: set<Entry<V>>,
                       ghost newChains: seq<seq<Entry<V>>>, ghost done: set<Entry<V>>)
    returns (ghost newChains': seq<seq<Entry<V>>>, ghost done': set<Entry<V>>)
    requires old_ != arr && i < |t| && arr.Length == newMax + 1 == 2 * |t|
    requires IsPow2(newMax + 1) && Placed(t) && Apart(chains)
    requires Untouched(old_, chains, t, i, live, done) && done <= live
    requires Rebuilt(arr, newChains, Moved(t, i, 0), done)
    modifies arr, live`next
    ensures Untouched(old_, chains, t, i + 1, live, done') && done' <= live
    ensures Rebuilt(arr, newChains', Moved(t, i + 1, 0), done')
  {
    assert Unmoved(old_[i], chains[i], t[i], i, |t|, done);
    newChains', done' := MoveChain(old_[i], arr, newMax, chains[i], t, i, newChains, done);
    forall b | i + 1 <= b < |chains| ensures Unmoved(old_[b], chains[b], t[b], b, |t|, done') {
      var es, cs := chains[b], t[b];
      assert old(Unmoved(old_[b], es, cs, b, |t|, done));
      assert ChainOk(old_[b], es, cs, b, |t|) == old(ChainOk(old_[b], es, cs, b, |t|));
    }
  }

  ghost function SetOf<T>(s: seq<T>): set<T> {
    set x | x in s
  }

  lemma {:induction false} DistinctSize<T>(s: seq<T>)
    requires Distinct(s)
    ensures |SetOf(s)| == |s|
  {
    if s != [] {
      var front, last := s[..|s| - 1], s[|s| - 1];
      DistinctSize(front);
      assert s == front + [last];
      assert SetOf(s) == SetOf(front) + {last};
    }
  }

  ghost function Entries<V>(chains: seq<seq<Entry<V>>>): set<Entry<V>> {
    if chains == [] then {} else Entries(chains[1..]) + SetOf(chains[0])
  }

  lemma {:induction false} EntriesMembers<V>(chains: seq<seq<Entry<V>>>)
    ensures forall e :: e in Entries(chains) <==> exists b :: 0 <= b < |chains| && e in chains[b]
  {
    if chains != [] {
      var rest := chains[1..];
      EntriesMembers(rest);
      forall e ensures e in Entries(chains) <==> exists b :: 0 <= b < |chains| && e in chains[b] {
        if b :| 0 <= b < |chains| && e in chains[b] {
          assert b > 0 ==> rest[b - 1] == chains[b];
        }
        if b :| 0 <= b < |rest| && e in rest[b] {
          assert chains[b + 1] == rest[b];
        }
      }
    }
  }

  lemma {:induction false} EntriesSize<V>(chains: seq<seq<Entry<V>>>, cells: Buckets<V>)
    requires Apart(chains) && |chains| == |cells|
    requires forall b :: 0 <= b < |chains| ==> Distinct(chains[b]) && |chains[b]| == |cells[b]|
    ensures |Entries(chains)| == Total(cells)
  {
    if chains != [] {
      var rest := chains[1..];
      assert forall b :: 0 <= b < |rest| ==> rest[b] == chains[b + 1];
      EntriesSize(rest, cells[1..]);
      DistinctSize(chains[0]);
      forall e | e in Entries(rest) ensures e !in chains[0] {
        RestIsApart(chains, e);
      }
      assert Entries(rest) !! SetOf(chains[0]);
    }
  }

  lemma RestIsApart<V>(chains: seq<seq<Entry<V>>>, e: Entry<V>)
    requires Apart(chains) && chains != [] && e in Entries(chains[1..])
    ensures e !in chains[0]
  {
    var rest := chains[1..];
    EntriesMembers(rest);
    assert exists b :: 0 <= b < |rest| && e in rest[b];
    var b :| 0 <= b < |rest| && e in rest[b];
    var i :| 0 <= i < |rest[b]| && rest[b][i] == e;
    assert e == chains[b + 1][i];
  }

  lemma {:induction false} EntriesWithin<V>(chains: seq<seq<Entry<V>>>, live: set<Entry<V>>)
    requires forall b, i :: 0 <= b < |chains| && 0 <= i < |chains[b]| ==> chains[b][i] in live
    ensures Entries(chains) <= live
  {
    if chains != [] {
      var rest := chains[1..];
      assert forall b :: 0 <= b < |rest| ==> rest[b] == chains[b + 1];
      EntriesWithin(rest, live);
    }
  }

  lemma SubsetOfSameSize<T>(s: set<T>, t: set<T>)
    requires s <= t && |s| == |t|
    ensures s == t
  {
    assert |t - s| == |t| - |s|;
  }

  class Table<V(!new)> {
    var buckets: array<Entry?<V>>
    var count: nat
    var max: nat
    const hashFunc: Hash
    var free: Entry?<V>
    ghost var chains: seq<seq<Entry<V>>>  // the entries of every bucket
    ghost var cells: Buckets<V>           // what they hold
    ghost var live: set<Entry<V>>         // the entries in use
    ghost var freeList: seq<Entry<V>>     // the entries removed and kept

    // Every live node is on exactly the chain its hash selects, and `count`
    // is their number.
    ghost predicate LiveOk()
      reads this`buckets, this`count, this`max, this`chains, this`cells, this`live, buckets, live
    {
      && buckets.Length == |chains| == |cells| == max + 1
      && IsPow2(max + 1)
      && Total(cells) == count == |live|
      && (forall b, i :: 0 <= b < |chains| && 0 <= i < |chains[b]| ==> chains[b][i] in live)
      && (forall b :: 0 <= b < |chains| ==> BucketOk(b))
    }

    ghost predicate BucketOk(b: nat)
      requires b < |chains| && b < |cells| && b < buckets.Length
      reads this`buckets, this`chains, this`cells, buckets, chains[b]
    {
      ChainOk(buckets[b], chains[b], cells[b], b, buckets.Length)
    }

    // No free node is live, and every free node has a null value.
    ghost predicate FreeOk()
      reads this`free, this`freeList, this`live, freeList
    {
      && Linked(free, freeList)
      && forall e :: e in freeList ==> e !in live && e.value.None?
    }

    ghost predicate Valid()
      reads this, buckets, live, freeList
    {
      LiveOk() && FreeOk() && count <= max
    }

    ghost function LinkAt(b: nat, i: nat): Link<V>
      requires b < |chains| && i <= |chains[b]|
      reads this
    {
      if i == 0 then Slot(b) else NextOf(chains[b][i - 1])
    }

    // The walk of find_entry: the link in front of the first match, or the
    // null link at the end of the bucket.
    method FindLink(key: string) returns (link: Link<V>, e: Entry?<V>, ghost b: nat, ghost i: nat)
      requires LiveOk()
      ensures b == hashFunc(key) % |cells| && BucketOk(b) && |chains[b]| == |cells[b]|
      ensures i == Find(cells[b], hashFunc(key), key)
      ensures link == LinkAt(b, i) && e == if i < |chains[b]| then chains[b][i] else null
    {
      var hash := hashFunc(key);
      MaskIsMod(hash, max + 1);
      var slot := BitAnd(hash, max);
      b := slot;
      assert BucketOk(b);
      ghost var c := cells[b];
      link, e, i := Slot(slot), buckets[slot], 0;
      while e != null && !(e.hash == hash && e.key == key)
        invariant i <= |c|
        invariant link == LinkAt(b, i) && e == if i < |c| then chains[b][i] else null
        invariant Find(c, hash, key) == i + Find(c[i..], hash, key)
        decreases |c| - i
      {
        link, e, i := NextOf(e), e.next, i + 1;
      }
    }

    // hash_peek. An absent key makes the source read through a null pointer.
    method Peek(key: string) returns (v: V)
      requires Valid() && Lookup(cells, hashFunc, key).Some?
      ensures Some(v) == Lookup(cells, hashFunc, key)
    {
      var link, e, b, i := FindLink(key);
      v := e.value.value;
    }

    // Unlinks the head of the free list.
    method PopFree() returns (e: Entry<V>)
      requires FreeOk() && free != null
      modifies this`free, this`freeList
      ensures FreeOk() && old(freeList) == [e] + freeList && e !in freeList
    {
      e := free;
      free := e.next;
      freeList := freeList[1..];
    }

    // The node find_entry is about to link in: the first of the free list, or
    // a new one. strncpy writes the key; the value is null either way.
    method TakeNode(key: string) returns (e: Entry<V>)
      requires FreeOk()
      modifies this`free, this`freeList, freeList
      ensures LiveOk() == old(LiveOk()) && FreeOk() && e !in live && e !in freeList
      ensures [e] + freeList == old(freeList) || (freeList == old(freeList) && fresh(e))
      ensures e.next == null && e.value.None? && e.hash == hashFunc(key) && e.key == StoredKey(key)
    {
      if free != null {
        e := PopFree();
        assert LiveOk() == old(LiveOk());
      } else {
        e := new Entry();
        assert LiveOk() == old(LiveOk());
      }
      label L:
      e.Rename(hashFunc(key), key);
      assert LiveOk() == old@L(LiveOk());
    }

    // hash_create
    constructor (size: uint32, hashFunc: Hash)
      ensures Valid() && this.hashFunc == hashFunc
      ensures live == {} && freeList == [] && fresh(buckets)
      ensures cells == seq(max + 1, _ => [])
      ensures max + 1 <= 0x8000_0000 && (size == 0 ==> max == 15)
      ensures max + 1 >= size * 4 / 3 <==> size < 0x4000_0000
      ensures 0 < size < 0x4000_0000 && max > 0 ==> (max + 1) / 2 < size * 4 / 3
    {
      var maxSize := MaskFor(size);
      count, max, this.hashFunc, free := 0, maxSize, hashFunc, null;
      buckets := new Entry?<V>[maxSize + 1](_ => null);
      chains, cells := seq(maxSize + 1, _ => []), seq(maxSize + 1, _ => []);
      live, freeList := {}, [];
      new;
      AllEmpty(cells);
      forall b | 0 <= b < |chains| ensures BucketOk(b) {
        assert chains[b] == [] && cells[b] == [];
      }
      assert LiveOk();
    }

    // An entry of bucket `b` is in no other bucket.
    lemma OnlyIn(b: nat, i: nat)
      requires LiveOk() && b < |chains| && i < |chains[b]|
      ensures forall b' :: 0 <= b' < |chains| && b' != b ==> chains[b][i] !in chains[b']
    {
      forall b' | 0 <= b' < |chains| && b' != b ensures chains[b][i] !in chains[b'] {
        assert BucketOk(b) && BucketOk(b');
        ChainsDisjoint(buckets[b], chains[b], cells[b], b, i, buckets[b'], chains[b'], cells[b'], b', max + 1);
      }
    }

    // *link = e, where `link` is the one in front of position `i` of bucket `b`.
    method Write(link: Link<V>, e: Entry?<V>, ghost b: nat, ghost i: nat)
      requires LiveOk() && FreeOk() && b < |chains| && i <= |chains[b]| && link == LinkAt(b, i)
      modifies buckets, chains[b]`next
      ensures FreeOk() == old(FreeOk())
      ensures buckets[b] == if i == 0 then e else old(buckets[b])
      ensures forall j {:trigger chains[b][j].next} :: 0 <= j < |chains[b]| ==>
                chains[b][j].next == if j + 1 == i then e else old(chains[b][j].next)
      ensures forall b' :: 0 <= b' < |chains| && b' != b ==> BucketOk(b')
    {
      assert BucketOk(b);
      if i > 0 {
        OnlyIn(b, i - 1);
      }
      match link {
        case Slot(slot) => buckets[slot] := e;
        case NextOf(p) => p.next := e;
      }
      forall b' | 0 <= b' < |chains| && b' != b ensures BucketOk(b') {
        assert old(BucketOk(b'));
        var es, cs := chains[b'], cells[b'];
        assert ChainOk(buckets[b'], es, cs, b', buckets.Length)
            == old(ChainOk(buckets[b'], es, cs, b', buckets.Length));
      }
    }

    // *link = e at the end of bucket `b`, and its value.
    method Attach(link: Link<V>, e: Entry<V>, v: V, ghost b: nat) returns (oldValue: Option<V>)
      requires LiveOk() && FreeOk() && e !in live && e !in freeList
      requires e.next == null && e.value.None? && b == e.hash % |cells|
      requires link == LinkAt(b, |chains[b]|)
      modifies buckets, chains[b]`next, e`value
      ensures FreeOk() == old(FreeOk()) && oldValue.None? && e.value == Some(v)
      ensures ChainOk(buckets[b], chains[b] + [e], cells[b] + [Cell(e.hash, e.key, v)], b, |cells|)
      ensures forall b' :: 0 <= b' < |chains| && b' != b ==> BucketOk(b')
    {
      assert BucketOk(b);
      Write(link, e, b, |chains[b]|);
      label L:
      oldValue := e.value;
      e.value := Some(v);
      ExtendChain(buckets[b], chains[b], cells[b], b, |cells|, e, Cell(e.hash, e.key, v));
      forall b' | 0 <= b' < |chains| && b' != b ensures BucketOk(b') {
        assert BucketOk(b') == old@L(BucketOk(b'));
      }
    }

    // Records the surgery on bucket `b`: the table is whole again.
    method Commit(ghost b: nat, ghost es: seq<Entry<V>>, ghost cs: seq<Cell<V>>, ghost live': set<Entry<V>>,
                  newCount: nat)
      requires b < |chains| == |cells| == buckets.Length == max + 1 && IsPow2(max + 1)
      requires Total(cells) == count && newCount == count - |cells[b]| + |cs| == |live'|
      requires ChainOk(buckets[b], es, cs, b, |cells|)
      requires forall b' :: 0 <= b' < |chains| && b' != b ==> BucketOk(b')
      requires FreeOk() && forall e :: e in freeList ==> e !in live'
      requires forall i :: 0 <= i < |es| ==> es[i] in live'
      requires forall b', i :: 0 <= b' < |chains| && b' != b && 0 <= i < |chains[b']| ==> chains[b'][i] in live'
      modifies this`count, this`chains, this`cells, this`live
      ensures LiveOk() && FreeOk()
      ensures cells == old(cells)[b := cs] && chains == old(chains)[b := es] && live == live' && count == newCount
    {
      TotalUpdate(cells, b, cs);
      count := newCount;
      label L:
      chains := chains[b := es];
      cells := cells[b := cs];
      live := live';
      forall b' | 0 <= b' < |chains| ensures BucketOk(b') {
        assert b' != b ==> old@L(BucketOk(b'));
      }
    }

    // hash_push with a value: find_entry's insertion when the key is absent,
    // replacement when it is present. A recycled node acts as a fresh one, so
    // a first insertion returns null.
    method Store(key: string, v: V) returns (oldValue: Option<V>, ghost node: Entry?<V>)
      requires LiveOk() && FreeOk()
      modifies this`count, this`chains, this`cells, this`live, this`free, this`freeList, buckets, live, freeList
      ensures LiveOk() && FreeOk() && count <= old(count) + 1
      ensures node == null ==> live == old(live) && freeList == old(freeList)
      ensures node != null ==> live == old(live) + {node}
      ensures node != null ==> [node] + freeList == old(freeList) || (freeList == old(freeList) && fresh(node))
      ensures cells == Stored(old(cells), hashFunc, key, v)
      ensures oldValue == old(Lookup(cells, hashFunc, key))
    {
      var link, e, b, i := FindLink(key);
      if e == null {
        oldValue, node := StoreNew(link, key, v, b);
      } else {
        oldValue := e.value;
        node := null;
        Overwrite(e, v, b, i);
      }
    }

    method StoreNew(link: Link<V>, key: string, v: V, ghost b: nat) returns (oldValue: Option<V>, ghost node: Entry<V>)
      requires LiveOk() && FreeOk()
      requires b == hashFunc(key) % |cells| && link == LinkAt(b, |chains[b]|)
      modifies this`count, this`chains, this`cells, this`live, this`free, this`freeList, buckets, live, freeList
      ensures LiveOk() && FreeOk() && oldValue.None? && count == old(count) + 1
      ensures live == old(live) + {node}
      ensures [node] + freeList == old(freeList) || (freeList == old(freeList) && fresh(node))
      ensures cells == old(cells)[b := old(cells)[b] + [Cell(hashFunc(key), StoredKey(key), v)]]
    {
      var e := TakeNode(key);
      node := e;
      oldValue := LinkIn(link, e, v, b);
    }

    method LinkIn(link: Link<V>, e: Entry<V>, v: V, ghost b: nat) returns (oldValue: Option<V>)
      requires LiveOk() && FreeOk() && e !in live && e !in freeList
      requires e.next == null && e.value.None? && b == e.hash % |cells|
      requires link == LinkAt(b, |chains[b]|)
      modifies this`count, this`chains, this`cells, this`live, buckets, live, e
      ensures LiveOk() && FreeOk() && oldValue.None? && count == old(count) + 1
      ensures live == old(live) + {e}
      ensures cells == old(cells)[b := old(cells)[b] + [Cell(old(e.hash), old(e.key), v)]]
    {
      oldValue := Attach(link, e, v, b);
      Commit(b, chains[b] + [e], cells[b] + [Cell(e.hash, e.key, v)], live + {e}, count + 1);
    }

    method Overwrite(e: Entry<V>, v: V, ghost b: nat, ghost i: nat)
      requires LiveOk() && FreeOk() && b < |chains| && i < |chains[b]| == |cells[b]| && e == chains[b][i]
      modifies this`cells, e`value
      ensures LiveOk() && FreeOk() == old(FreeOk())
      ensures cells == old(cells)[b := old(cells)[b][i := old(cells)[b][i].(value := v)]]
    {
      assert BucketOk(b);
      OnlyIn(b, i);
      ghost var cs := cells[b][i := cells[b][i].(value := v)];
      TotalUpdate(cells, b, cs);
      e.value := Some(v);
      label L:
      cells := cells[b := cs];
      forall b' | 0 <= b' < |chains| ensures BucketOk(b') {
        assert old(BucketOk(b'));
        if b' != b {
          var es, cs' := chains[b'], cells[b'];
          assert ChainOk(buckets[b'], es, cs', b', buckets.Length)
              == old(ChainOk(buckets[b'], es, cs', b', buckets.Length));
        }
      }
    }

    // The entry popped with `key` leaves its chain and no other moves.
    ghost predicate PoppedChain(before: seq<seq<Entry<V>>>, t: Buckets<V>, key: string, after: seq<seq<Entry<V>>>)
      requires t != []
    {
      var b := hashFunc(key) % |t|;
      var i := Find(t[b], hashFunc(key), key);
      && |before| == |t| && |before[b]| == |t[b]|
      && after == if i < |t[b]| then before[b := RemoveAt(before[b], i)] else before
    }

    // hash_push with NULL, and so hash_pop: the entry leaves its chain for the
    // free list, its value becomes null.
    method Pop(key: string) returns (oldValue: Option<V>)
      requires Valid()
      modifies this`count, this`chains, this`cells, this`live, this`free, this`freeList, buckets, live
      ensures Valid() && Nodes() == old(Nodes()) && live <= old(live)
      ensures cells == Popped(old(cells), hashFunc, key)
      ensures PoppedChain(old(chains), old(cells), key, chains)
      ensures oldValue == old(Lookup(cells, hashFunc, key))
    {
      var link, e, b, i := FindLink(key);
      PopAt(cells, hashFunc, key, b, i);
      if e == null {
        return None;
      }
      oldValue := Delete(link, e, b, i);
    }

    method Delete(link: Link<V>, e: Entry<V>, ghost b: nat, ghost i: nat) returns (oldValue: Option<V>)
      requires LiveOk() && FreeOk() && b < |chains| && i < |chains[b]| == |cells[b]|
      requires link == LinkAt(b, i) && e == chains[b][i]
      modifies this`count, this`chains, this`cells, this`live, this`free, this`freeList, buckets, live
      ensures LiveOk() && FreeOk() && count == old(count) - 1
      ensures live == old(live) - {e} && freeList == [e] + old(freeList)
      ensures cells == old(cells)[b := RemoveAt(old(cells)[b], i)]
      ensures chains == old(chains)[b := RemoveAt(old(chains)[b], i)]
      ensures oldValue == Some(old(cells)[b][i].value)
    {
      assert BucketOk(b);
      TotalUpdate(cells, b, []);
      Unlink(link, e, b, i);
      Commit(b, RemoveAt(chains[b], i), RemoveAt(cells[b], i), live - {e}, count - 1);
      oldValue := Recycle(e);
    }

    method Unlink(link: Link<V>, e: Entry<V>, ghost b: nat, ghost i: nat)
      requires LiveOk() && FreeOk() && b < |chains| && i < |chains[b]| == |cells[b]|
      requires link == LinkAt(b, i) && e == chains[b][i]
      modifies buckets, chains[b]`next
      ensures FreeOk() == old(FreeOk())
      ensures ChainOk(buckets[b], RemoveAt(chains[b], i), RemoveAt(cells[b], i), b, |cells|)
      ensures forall b' :: 0 <= b' < |chains| && b' != b ==> BucketOk(b') && e !in chains[b']
      ensures e !in RemoveAt(chains[b], i) && forall x :: x in RemoveAt(chains[b], i) ==> x in live
    {
      assert BucketOk(b);
      OnlyIn(b, i);
      RemoveKeepsDistinct(chains[b], i);
      RemoveMembers(chains[b], i);
      Write(link, e.next, b, i);
      ShrinkChain(buckets[b], chains[b], cells[b], b, |cells|, i);
    }

    method Recycle(e: Entry<V>) returns (oldValue: Option<V>)
      requires LiveOk() && FreeOk() && e !in live && e !in freeList
      modifies this`free, this`freeList, e`next, e`value
      ensures LiveOk() == old(LiveOk()) && FreeOk() && oldValue == old(e.value)
      ensures freeList == [e] + old(freeList)
    {
      e.next := free;
      oldValue := e.value;
      e.value := None;
      assert LiveOk() == old(LiveOk());
      label L:
      free := e;
      freeList := [e] + freeList;
      assert LiveOk() == old@L(LiveOk());
    }

    lemma EntriesAreLive()
      requires LiveOk()
      ensures Entries(chains) == live
    {
      forall b | 0 <= b < |chains| ensures Distinct(chains[b]) && |chains[b]| == |cells[b]| {
        assert BucketOk(b);
      }
      BeforeGrowth();
      EntriesSize(chains, cells);
      EntriesWithin(chains, live);
      SubsetOfSameSize(Entries(chains), live);
    }

    // The live nodes are the ones on the chains, each in the bucket its hash
    // selects; with FreeOk, live and free nodes partition `Nodes`.
    lemma LiveIsChained()
      requires LiveOk()
      ensures forall e :: e in live ==> e in chains[e.hash % |chains|] && e.value.Some?
    {
      EntriesAreLive();
      EntriesMembers(chains);
      forall e | e in live ensures e in chains[e.hash % |chains|] && e.value.Some? {
        var b :| 0 <= b < |chains| && e in chains[b];
        InItsBucket(e, b);
      }
    }

    lemma InItsBucket(e: Entry<V>, b: nat)
      requires LiveOk() && b < |chains| && e in chains[b]
      ensures e.hash % |chains| == b && e.value.Some?
    {
      assert BucketOk(b);
    }

    lemma BeforeGrowth()
      requires LiveOk()
      ensures Placed(cells) && Apart(chains) && Total(Doubled(cells)) == count && IsPow2(2 * (max + 1))
      ensures Untouched(buckets, chains, cells, 0, live, {})
    {
      forall b, i | 0 <= b < |cells| && 0 <= i < |cells[b]| ensures cells[b][i].hash % |cells| == b {
        assert BucketOk(b);
      }
      forall b, i | 0 <= b < |chains| && 0 <= i < |chains[b]|
        ensures forall b' :: 0 <= b' < |chains| && b' != b ==> chains[b][i] !in chains[b']
      {
        OnlyIn(b, i);
      }
      DoublingKeepsTotal(cells);
      forall b | 0 <= b < |chains| ensures Unmoved(buckets[b], chains[b], cells[b], b, |cells|, {}) {
        assert BucketOk(b);
      }
    }

    // __expand_array
    method ExpandArray()
      requires LiveOk() && FreeOk()
      modifies this`buckets, this`max, this`chains, this`cells, live`next
      ensures LiveOk() && FreeOk() && fresh(buckets)
      ensures cells == Doubled(old(cells))
    {
      BeforeGrowth();
      var newMax := max * 2 + 1;
      var newArray := new Entry?<V>[newMax + 1](_ => null);
      ghost var newChains := MoveBuckets(newArray, newMax);
      Install(newArray, newMax, newChains);
    }

    // The outer loop of __expand_array.
    method MoveBuckets(newArray: array<Entry?<V>>, newMax: nat) returns (ghost newChains: seq<seq<Entry<V>>>)
      requires Placed(cells) && Apart(chains) && IsPow2(newMax + 1)
      requires Untouched(buckets, chains, cells, 0, live, {}) && FreeOk()
      requires newArray != buckets && newArray.Length == newMax + 1 == 2 * |cells| && |cells| == max + 1
      requires forall j :: 0 <= j < newArray.Length ==> newArray[j] == null
      modifies newArray, live`next
      ensures FreeOk() == old(FreeOk())
      ensures Rebuilt(newArray, newChains, Doubled(cells), live)
    {
      ghost var done: set<Entry<V>> := {};
      newChains := seq(newMax + 1, _ => []);
      MovedAll(cells);
      NoneMoved(newArray, newChains, cells);
      for i := 0 to max + 1
        invariant Untouched(buckets, chains, cells, i, live, done) && done <= live
        invariant Rebuilt(newArray, newChains, Moved(cells, i, 0), done)
        invariant FreeOk() == old(FreeOk())
      {
        newChains, done := MoveBucket(buckets, i, newArray, newMax, chains, cells, live, newChains, done);
      }
    }

    method Install(newArray: array<Entry?<V>>, newMax: nat, ghost newChains: seq<seq<Entry<V>>>)
      requires Total(Doubled(cells)) == count == |live| && IsPow2(newMax + 1) && newMax + 1 == 2 * |cells|
      requires Rebuilt(newArray, newChains, Doubled(cells), live)
      modifies this`buckets, this`max, this`chains, this`cells
      ensures LiveOk() && FreeOk() == old(FreeOk())
      ensures buckets == newArray && cells == Doubled(old(cells))
    {
      ghost var t := Doubled(cells);
      buckets := newArray;
      max := newMax;
      chains, cells := newChains, t;
      forall b | 0 <= b < |chains| ensures BucketOk(b) {
        assert ChainOk(newArray[b], newChains[b], t[b], b, |t|);
      }
    }

    // hash_push with a value.
    method Push(key: string, v: V) returns (oldValue: Option<V>)
      requires Valid()
      modifies this, buckets, live, freeList
      ensures Valid() && (buckets == old(buckets) || fresh(buckets))
      ensures cells == Pushed(old(cells), hashFunc, key, v)
      ensures oldValue == old(Lookup(cells, hashFunc, key))
      ensures Nodes() >= old(Nodes()) && fresh(Nodes() - old(Nodes()))
    {
      ghost var node;
      oldValue, node := Store(key, v);
      Balance();
    }

    // The array grows when it has fewer buckets than entries.
    method Balance()
      requires LiveOk() && FreeOk() && count <= max + 1
      modifies this`buckets, this`max, this`chains, this`cells, live`next
      ensures Valid() && (buckets == old(buckets) || fresh(buckets))
      ensures cells == if Total(old(cells)) > |old(cells)| - 1 then Doubled(old(cells)) else old(cells)
    {
      if count > max {
        ExpandArray();
      }
    }

    // Every entry allocated so far.
    ghost function Nodes(): set<Entry<V>>
      reads this`live, this`freeList
    {
      live + set e | e in freeList
    }

    // Where a traversal of the table `t` stands in bucket `i`, whose entries
    // were `es`: those from `p` on are still linked, in order, at the end of
    // the chain.
    ghost predicate Standing(t: Buckets<V>, pops: Cell<V> -> bool, es: seq<Entry<V>>, i: nat, p: nat, entry: Entry?<V>)
      reads this`cells, this`chains
    {
      && i < |t| == |chains| && p <= |t[i]| == |es|
      && cells == Swept(t, i, p, pops)
      && |chains[i]| == |Kept(t[i][..p], pops)| + |es| - p
      && chains[i][|Kept(t[i][..p], pops)|..] == es[p..]
      && entry == if p < |es| then es[p] else null
    }

    // One call of the callback of hash_foreach, on the entry the traversal
    // stands at.
    method Visit(entry: Entry<V>, pops: Cell<V> -> bool, ghost t: Buckets<V>, ghost es: seq<Entry<V>>,
                 ghost i: nat, ghost p: nat)
      returns (next: Entry?<V>, cell: Cell<V>)
      requires Valid() && PopsItself(t, hashFunc, pops) && Standing(t, pops, es, i, p, entry)
      modifies this`count, this`chains, this`cells, this`live, this`free, this`freeList, buckets, live
      ensures Valid() && Nodes() == old(Nodes()) && live <= old(live) && p < |t[i]| && cell == t[i][p]
      ensures Standing(t, pops, es, i, p + 1, next)
    {
      ghost var k := |Kept(t[i][..p], pops)|;
      assert BucketOk(i);
      assert chains[i][k] == es[p] && cells[i][k] == t[i][p];
      next := entry.next;
      assert next == if p + 1 < |es| then es[p + 1] else null by {
        assert p + 1 < |es| ==> chains[i][k + 1] == es[p..][1];
      }
      cell := Cell(entry.hash, entry.key, entry.value.value);
      SweepStep(t, hashFunc, i, p, pops);
      KeptNext(t[i], p, pops);
      if pops(cell) {
        FindCurrent(t[i], hashFunc, p, pops);
        var _ := Pop(cell.key);
        assert RemoveAt(old(chains[i]), k)[k..] == es[p..][1..];
      } else {
        assert chains[i][k + 1..] == es[p..][1..];
      }
      assert es[p..][1..] == es[p + 1..];
    }

    // The inner loop of hash_foreach, on bucket `slot`.
    method ForEachIn(slot: nat, pops: Cell<V> -> bool, ghost t: Buckets<V>) returns (visited: seq<Cell<V>>)
      requires Valid() && PopsItself(t, hashFunc, pops) && slot < |t| && cells == Swept(t, slot, 0, pops)
      modifies this`count, this`chains, this`cells, this`live, this`free, this`freeList, buckets, live
      ensures Valid() && Nodes() == old(Nodes()) && live <= old(live)
      ensures visited == t[slot] && cells == Swept(t, slot, |t[slot]|, pops)
    {
      assert BucketOk(slot);
      ghost var es := chains[slot];
      assert t[slot][..0] == [] && t[slot][0..] == t[slot] && es[0..] == es;
      var entry := buckets[slot];
      visited := [];
      ghost var p := 0;
      while entry != null
        invariant Valid() && Nodes() == old(Nodes()) && live <= old(live)
        invariant Standing(t, pops, es, slot, p, entry) && visited == t[slot][..p]
        decreases |t[slot]| - p
      {
        PrefixNext(t[slot], p);
        var cell;
        entry, cell := Visit(entry, pops, t, es, slot, p);
        visited := visited + [cell];
        p := p + 1;
      }
    }

    // hash_foreach, with a callback that may pop the key it is called on and
    // no other. `visited` are the calls it gets.
    method ForEach(pops: Cell<V> -> bool) returns (visited: seq<Cell<V>>)
      requires Valid() && PopsItself(cells, hashFunc, pops)
      modifies this`count, this`chains, this`cells, this`live, this`free, this`freeList, buckets, live
      ensures Valid() && Nodes() == old(Nodes()) && live <= old(live)
      ensures visited == Flat(old(cells)) && cells == Swept(old(cells), |old(cells)|, 0, pops)
    {
      ghost var t := cells;
      SweptStart(t, pops);
      visited := [];
      for slot := 0 to max + 1
        invariant Valid() && Nodes() == old(Nodes()) && live <= old(live)
        invariant visited == Passed(t, slot, 0) && cells == Swept(t, slot, 0, pops)
      {
        var passed := ForEachIn(slot, pops, t);
        SweptBucket(t, slot, pops);
        PassedFrom(t, slot, |passed|);
        visited := visited + passed;
      }
    }
  }
}
