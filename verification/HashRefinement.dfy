// The hash table is a finite map: chains, recycling and doubling never show.
module HashRefinement {
  import opened Common
  import opened HashModel

  // ----- One chain -----

  // The chain of bucket `b` of `n` when every key was stored whole.
  ghost predicate HonestChain<V(!new)>(c: seq<Cell<V>>, h: Hash, b: nat, n: nat)
    requires n > 0
  {
    && (forall i :: 0 <= i < |c| ==> c[i].hash == h(c[i].key) && |c[i].key| <= KEY_LIMIT && c[i].hash % n == b)
    && (forall i, j :: 0 <= i < j < |c| ==> c[i].key != c[j].key)
  }

  lemma ValueIsMember<V(!new)>(c: seq<Cell<V>>, h: Hash, b: nat, n: nat, key: string)
    requires n > 0 && HonestChain(c, h, b, n)
    ensures forall v :: ValueIn(c, h, key) == Some(v) <==> Cell(h(key), key, v) in c
  {
    var i := Find(c, h(key), key);
    forall v | Cell(h(key), key, v) in c ensures ValueIn(c, h, key) == Some(v) {
      var k :| 0 <= k < |c| && c[k] == Cell(h(key), key, v);
      assert i == k;
    }
  }

  // Two honest chains with the same cells for `key` hold the same value.
  lemma SameValue<V(!new)>(c: seq<Cell<V>>, d: seq<Cell<V>>, h: Hash, b: nat, n: nat, b': nat, n': nat, key: string)
    requires n > 0 && HonestChain(c, h, b, n) && n' > 0 && HonestChain(d, h, b', n')
    requires forall v :: Cell(h(key), key, v) in c <==> Cell(h(key), key, v) in d
    ensures ValueIn(c, h, key) == ValueIn(d, h, key)
  {
    ValueIsMember(c, h, b, n, key);
    ValueIsMember(d, h, b', n', key);
    if ValueIn(c, h, key).Some? {
      assert ValueIn(d, h, key) == Some(ValueIn(c, h, key).value);
    }
    if ValueIn(d, h, key).Some? {
      assert ValueIn(c, h, key) == Some(ValueIn(d, h, key).value);
    }
  }

  lemma ReplaceInChain<V(!new)>(c: seq<Cell<V>>, h: Hash, b: nat, n: nat, i: nat, v: V)
    requires n > 0 && HonestChain(c, h, b, n) && i < |c|
    ensures HonestChain(c[i := c[i].(value := v)], h, b, n)
    ensures forall k :: ValueIn(c[i := c[i].(value := v)], h, k) == if k == c[i].key then Some(v) else ValueIn(c, h, k)
  {
    var d := c[i := c[i].(value := v)];
    assert forall j :: 0 <= j < |c| ==> d[j].key == c[j].key;
    forall k ensures ValueIn(d, h, k) == if k == c[i].key then Some(v) else ValueIn(c, h, k) {
      if k == c[i].key {
        ValueIsMember(d, h, b, n, k);
        assert d[i] == Cell(h(k), k, v);
      } else {
        assert forall j :: 0 <= j < |c| && c[j].key == k ==> d[j] == c[j];
        SameValue(d, c, h, b, n, b, n, k);
      }
    }
  }

  lemma AppendToChain<V(!new)>(c: seq<Cell<V>>, h: Hash, b: nat, n: nat, key: string, v: V)
    requires n > 0 && HonestChain(c, h, b, n) && h(key) % n == b && |key| <= KEY_LIMIT
    requires ValueIn(c, h, key).None?
    ensures HonestChain(c + [Cell(h(key), key, v)], h, b, n)
    ensures forall k :: ValueIn(c + [Cell(h(key), key, v)], h, k) == if k == key then Some(v) else ValueIn(c, h, k)
  {
    var d := c + [Cell(h(key), key, v)];
    forall k ensures ValueIn(d, h, k) == if k == key then Some(v) else ValueIn(c, h, k) {
      if k == key {
        ValueIsMember(d, h, b, n, k);
        assert d[|c|] == Cell(h(k), k, v);
      } else {
        SameValue(d, c, h, b, n, b, n, k);
      }
    }
  }

  lemma RemoveFromChain<V(!new)>(c: seq<Cell<V>>, h: Hash, b: nat, n: nat, i: nat)
    requires n > 0 && HonestChain(c, h, b, n) && i < |c|
    ensures HonestChain(RemoveAt(c, i), h, b, n)
    ensures forall k :: ValueIn(RemoveAt(c, i), h, k) == if k == c[i].key then None else ValueIn(c, h, k)
  {
    var d := RemoveAt(c, i);
    assert forall j :: 0 <= j < |d| ==> d[j] == c[if j < i then j else j + 1];
    forall k ensures ValueIn(d, h, k) == if k == c[i].key then None else ValueIn(c, h, k) {
      if k != c[i].key {
        assert forall j :: 0 <= j < |c| && c[j].key == k ==> d[if j < i then j else j - 1] == c[j];
        SameValue(d, c, h, b, n, b, n, k);
      }
    }
  }

  lemma {:induction false} SiftMembers<V(!new)>(c: seq<Cell<V>>, j: nat, size: nat)
    requires size > 0
    ensures forall x :: x in Sift(c, j, size) <==> x in c && x.hash % size == j
  {
    if c != [] {
      SiftMembers(c[..|c| - 1], j, size);
      assert c == c[..|c| - 1] + [c[|c| - 1]];
    }
  }

  lemma {:induction false} SiftIsHonest<V(!new)>(c: seq<Cell<V>>, h: Hash, b: nat, n: nat, j: nat, size: nat)
    requires n > 0 && size > 0 && HonestChain(c, h, b, n)
    ensures HonestChain(Sift(c, j, size), h, j, size)
  {
    if c != [] {
      var front := c[..|c| - 1];
      SiftIsHonest(front, h, b, n, j, size);
      SiftMembers(front, j, size);
      var rest := Sift(front, j, size);
      assert forall i :: 0 <= i < |rest| ==> rest[i] in front;
    }
  }

  // ----- The whole table -----

  ghost predicate Honest<V(!new)>(t: Buckets<V>, h: Hash) {
    t != [] && forall b :: 0 <= b < |t| ==> HonestChain(t[b], h, b, |t|)
  }

  function Get<V>(m: map<string, V>, key: string): Option<V> {
    if key in m then Some(m[key]) else None
  }

  // `t` holds exactly the bindings of `m`.
  ghost predicate Refines<V(!new)>(t: Buckets<V>, h: Hash, m: map<string, V>) {
    && Honest(t, h)
    && Total(t) == |m|
    && forall key :: Lookup(t, h, key) == Get(m, key)
  }

  // The size of the array is a power of two and the load stays below it.
  ghost predicate Roomy<V>(t: Buckets<V>) {
    IsPow2(|t|) && Total(t) <= |t| - 1
  }

  lemma HonestIsPlaced<V(!new)>(t: Buckets<V>, h: Hash)
    requires Honest(t, h)
    ensures Placed(t)
  {
  }

  lemma DoublingRefines<V(!new)>(t: Buckets<V>, h: Hash, m: map<string, V>)
    requires Refines(t, h, m)
    ensures Refines(Doubled(t), h, m)
  {
    var d := Doubled(t);
    HonestIsPlaced(t, h);
    DoublingKeepsTotal(t);
    forall j | 0 <= j < |d| ensures HonestChain(d[j], h, j, |d|) {
      SiftIsHonest(t[j % |t|], h, j % |t|, |t|, j, |d|);
    }
    forall key ensures Lookup(d, h, key) == Lookup(t, h, key) {
      var j, b := h(key) % |d|, h(key) % |t|;
      HalfMod(h(key), |t|, b);
      SameBucket(j, |t|, b);
      SiftMembers(t[b], j, |d|);
      SameValue(d[j], t[b], h, j, |d|, b, |t|, key);
    }
  }

  lemma SameBucket(j: nat, n: nat, b: nat)
    requires n > 0 && b < n && (j == b || j == b + n)
    ensures j % n == b
  {
    ModIs(j, if j == b then 0 else 1, n, b);
  }

  lemma ReplaceBucket<V(!new)>(t: Buckets<V>, h: Hash, b: nat, c: seq<Cell<V>>)
    requires Honest(t, h) && b < |t| && HonestChain(c, h, b, |t|)
    ensures Honest(t[b := c], h)
    ensures Total(t[b := c]) == Total(t) - |t[b]| + |c|
    ensures forall k :: Lookup(t[b := c], h, k) == if h(k) % |t| == b then ValueIn(c, h, k) else Lookup(t, h, k)
  {
    TotalUpdate(t, b, c);
  }

  lemma StoreLookups<V(!new)>(t: Buckets<V>, h: Hash, key: string, v: V)
    requires Honest(t, h) && |key| <= KEY_LIMIT
    ensures var t' := Stored(t, h, key, v);
            && Honest(t', h) && |t'| == |t|
            && Total(t') == Total(t) + (if Lookup(t, h, key).None? then 1 else 0)
            && forall k :: Lookup(t', h, k) == if k == key then Some(v) else Lookup(t, h, k)
  {
    var b := h(key) % |t|;
    var chain := t[b];
    var i := Find(chain, h(key), key);
    if i < |chain| {
      ReplaceInChain(chain, h, b, |t|, i, v);
      ReplaceBucket(t, h, b, chain[i := chain[i].(value := v)]);
    } else {
      AppendToChain(chain, h, b, |t|, key, v);
      ReplaceBucket(t, h, b, chain + [Cell(h(key), key, v)]);
    }
  }

  lemma PopLookups<V(!new)>(t: Buckets<V>, h: Hash, key: string)
    requires Honest(t, h)
    ensures var t' := Popped(t, h, key);
            && Honest(t', h) && |t'| == |t|
            && Total(t') == Total(t) - (if Lookup(t, h, key).Some? then 1 else 0)
            && forall k :: Lookup(t', h, k) == if k == key then None else Lookup(t, h, k)
  {
    var b := h(key) % |t|;
    var chain := t[b];
    var i := Find(chain, h(key), key);
    if i < |chain| {
      RemoveFromChain(chain, h, b, |t|, i);
      ReplaceBucket(t, h, b, RemoveAt(chain, i));
    }
  }

  lemma StoreRefines<V(!new)>(t: Buckets<V>, h: Hash, m: map<string, V>, key: string, v: V)
    requires Refines(t, h, m) && |key| <= KEY_LIMIT
    ensures Refines(Stored(t, h, key, v), h, m[key := v])
  {
    StoreLookups(t, h, key, v);
    forall k ensures Lookup(Stored(t, h, key, v), h, k) == Get(m[key := v], k) {
      assert Lookup(t, h, k) == Get(m, k);
    }
    assert Lookup(t, h, key) == Get(m, key);
  }

  lemma DoubledIsRoomy<V(!new)>(t: Buckets<V>, h: Hash)
    requires Honest(t, h) && IsPow2(|t|) && Total(t) <= |t|
    ensures Roomy(Doubled(t))
  {
    HonestIsPlaced(t, h);
    DoublingKeepsTotal(t);
    assert |Doubled(t)| / 2 == |t|;
  }

  // hash_push refines map update. The load is below the array size again
  // afterwards, whether or not the table grew.
  lemma PushRefines<V(!new)>(t: Buckets<V>, h: Hash, m: map<string, V>, key: string, v: V)
    requires Refines(t, h, m) && Roomy(t) && |key| <= KEY_LIMIT
    ensures Refines(Pushed(t, h, key, v), h, m[key := v])
    ensures Roomy(Pushed(t, h, key, v))
  {
    StoreRefines(t, h, m, key, v);
    StoreLookups(t, h, key, v);
    var t' := Stored(t, h, key, v);
    if Total(t') > |t'| - 1 {
      DoublingRefines(t', h, m[key := v]);
      DoubledIsRoomy(t', h);
    }
  }

  // hash_pop refines map removal.
  lemma PopRefines<V(!new)>(t: Buckets<V>, h: Hash, m: map<string, V>, key: string)
    requires Refines(t, h, m) && Roomy(t)
    ensures Refines(Popped(t, h, key), h, m - {key})
    ensures Roomy(Popped(t, h, key))
  {
    PopLookups(t, h, key);
    assert Lookup(t, h, key) == Get(m, key);
    assert key !in m ==> m - {key} == m;
    forall k ensures Lookup(Popped(t, h, key), h, k) == Get(m - {key}, k) {
      assert Lookup(t, h, k) == Get(m, k);
    }
  }

  // ----- Whole runs -----

  datatype TableOp<V> = Put(key: string, value: V) | Del(key: string)

  // Every operation returns the value the key had before.
  function TableStep<V>(t: Buckets<V>, h: Hash, op: TableOp<V>): (r: (Buckets<V>, Option<V>))
    requires t != []
    ensures r.0 != []
  {
    match op
    case Put(key, v) => (Pushed(t, h, key, v), Lookup(t, h, key))
    case Del(key) => (Popped(t, h, key), Lookup(t, h, key))
  }

  function TableRun<V>(t: Buckets<V>, h: Hash, ops: seq<TableOp<V>>): (Buckets<V>, seq<Option<V>>)
    requires t != []
    decreases |ops|
  {
    if ops == [] then (t, [])
    else
      var (t', old_) := TableStep(t, h, ops[0]);
      var (r, results) := TableRun(t', h, ops[1..]);
      (r, [old_] + results)
  }

  function MapStep<V>(m: map<string, V>, op: TableOp<V>): map<string, V> {
    match op
    case Put(key, v) => m[key := v]
    case Del(key) => m - {key}
  }

  function MapRun<V>(m: map<string, V>, ops: seq<TableOp<V>>): (map<string, V>, seq<Option<V>>)
    decreases |ops|
  {
    if ops == [] then (m, [])
    else
      var (r, results) := MapRun(MapStep(m, ops[0]), ops[1..]);
      (r, [Get(m, ops[0].key)] + results)
  }

  // Every key pushed has at most 30 characters; any key may be deleted.
  ghost predicate ShortKeys<V>(ops: seq<TableOp<V>>) {
    forall i :: 0 <= i < |ops| && ops[i].Put? ==> |ops[i].key| <= KEY_LIMIT
  }

  // From any table that holds the map `m`, in particular a new one, every run
  // that pushes keys of at most 30 characters returns what the map returns and
  // ends in a table that holds the resulting map, counts it, and is not
  // overloaded.
  lemma {:induction false} RunRefinesMap<V(!new)>(t: Buckets<V>, h: Hash, m: map<string, V>, ops: seq<TableOp<V>>)
    requires Refines(t, h, m) && Roomy(t) && ShortKeys(ops)
    ensures Refines(TableRun(t, h, ops).0, h, MapRun(m, ops).0)
    ensures Roomy(TableRun(t, h, ops).0)
    ensures TableRun(t, h, ops).1 == MapRun(m, ops).1
    decreases |ops|
  {
    if ops != [] {
      var op := ops[0];
      assert Lookup(t, h, op.key) == Get(m, op.key);
      match op {
        case Put(key, v) => PushRefines(t, h, m, key, v);
        case Del(key) => PopRefines(t, h, m, key);
      }
      RunRefinesMap(TableStep(t, h, op).0, h, MapStep(m, op), ops[1..]);
    }
  }

  lemma NewTableIsEmptyMap<V(!new)>(t: Buckets<V>, h: Hash)
    requires IsPow2(|t|) && forall b :: 0 <= b < |t| ==> t[b] == []
    ensures Refines(t, h, map[]) && Roomy(t)
  {
    AllEmpty(t);
  }

  // ----- Longer keys -----

  // What holds of every table, cut keys or not: an entry hangs off the bucket
  // its hash selects, keys are at most 30 characters, the load is below the
  // size.
  ghost predicate Sound<V>(t: Buckets<V>) {
    Placed(t) && KeysFit(t) && Total(t) <= |t| - 1
  }

  ghost predicate KeysFit<V>(t: Buckets<V>) {
    forall b, i :: 0 <= b < |t| && 0 <= i < |t[b]| ==> |t[b][i].key| <= KEY_LIMIT
  }

  lemma {:induction false} LongKeyNotIn<V(!new)>(c: seq<Cell<V>>, hash: uint32, key: string)
    requires |key| > KEY_LIMIT && forall x :: x in c ==> |x.key| <= KEY_LIMIT
    ensures Find(c, hash, key) == |c|
  {
    if c != [] {
      assert c[0] in c;
      LongKeyNotIn(c[1..], hash, key);
    }
  }

  ghost predicate InBucket<V>(x: Cell<V>, b: nat, n: nat)
    requires n > 0
  {
    x.hash % n == b && |x.key| <= KEY_LIMIT
  }

  lemma BucketIsSound<V(!new)>(t: Buckets<V>, b: nat, c: seq<Cell<V>>)
    requires Placed(t) && KeysFit(t) && b < |t|
    requires forall i :: 0 <= i < |c| ==> InBucket(c[i], b, |t|)
    ensures Placed(t[b := c]) && KeysFit(t[b := c]) && Total(t[b := c]) == Total(t) - |t[b]| + |c|
  {
    TotalUpdate(t, b, c);
  }

  lemma StoredIsSound<V(!new)>(t: Buckets<V>, h: Hash, key: string, v: V)
    requires Sound(t)
    ensures Placed(Stored(t, h, key, v)) && KeysFit(Stored(t, h, key, v))
    ensures Total(Stored(t, h, key, v)) <= Total(t) + 1
  {
    var b := h(key) % |t|;
    var c := Stored(t, h, key, v)[b];
    assert forall i :: 0 <= i < |t[b]| ==> InBucket(t[b][i], b, |t|);
    assert Stored(t, h, key, v) == t[b := c];
    BucketIsSound(t, b, c);
  }

  lemma DoubledIsSound<V(!new)>(t: Buckets<V>)
    requires Placed(t) && KeysFit(t) && Total(t) <= |t|
    ensures Sound(Doubled(t))
  {
    var d: Buckets<V> := Doubled(t);
    DoublingKeepsTotal(t);
    forall b: nat, i: nat | 0 <= b < |d| && 0 <= i < |d[b]|
      ensures d[b][i].hash % |d| == b && |d[b][i].key| <= KEY_LIMIT
    {
      SiftMembers(t[b % |t|], b, |d|);
      assert d[b][i] in d[b];
    }
  }

  lemma PushIsSound<V(!new)>(t: Buckets<V>, h: Hash, key: string, v: V)
    requires Sound(t)
    ensures Sound(Pushed(t, h, key, v))
  {
    var t' := Stored(t, h, key, v);
    StoredIsSound(t, h, key, v);
    if Total(t') > |t'| - 1 {
      DoubledIsSound(t');
    }
  }

  lemma PopIsSound<V(!new)>(t: Buckets<V>, h: Hash, key: string)
    requires Sound(t)
    ensures Sound(Popped(t, h, key))
  {
    var b := h(key) % |t|;
    var i := Find(t[b], h(key), key);
    PopAt(t, h, key, b, i);
    assert forall j :: 0 <= j < |t[b]| ==> InBucket(t[b][j], b, |t|);
    if i < |t[b]| {
      BucketIsSound(t, b, RemoveAt(t[b], i));
    }
  }

  // Every run on a sound table, in particular on a new one, ends in a sound
  // table, whatever the length of its keys.
  lemma {:induction false} RunIsSound<V(!new)>(t: Buckets<V>, h: Hash, ops: seq<TableOp<V>>)
    requires Sound(t)
    ensures Sound(TableRun(t, h, ops).0)
    decreases |ops|
  {
    if ops != [] {
      match ops[0] {
        case Put(key, v) => PushIsSound(t, h, key, v);
        case Del(key) => PopIsSound(t, h, key);
      }
      RunIsSound(TableStep(t, h, ops[0]).0, h, ops[1..]);
    }
  }

  lemma HonestIsSound<V(!new)>(t: Buckets<V>, h: Hash)
    requires Honest(t, h) && Roomy(t)
    ensures Sound(t)
  {
    HonestIsPlaced(t, h);
    forall b, i | 0 <= b < |t| && 0 <= i < |t[b]| ensures |t[b][i].key| <= KEY_LIMIT {
      assert HonestChain(t[b], h, b, |t|);
    }
  }

  lemma ReachableIsSound<V(!new)>(t: Buckets<V>, h: Hash, ops: seq<TableOp<V>>)
    requires IsPow2(|t|) && forall b :: 0 <= b < |t| ==> t[b] == []
    ensures Sound(TableRun(t, h, ops).0)
  {
    NewTableIsEmptyMap(t, h);
    HonestIsSound(t, h);
    RunIsSound(t, h, ops);
  }

  lemma {:induction false} FindAppended<V(!new)>(c: seq<Cell<V>>, x: Cell<V>)
    requires Find(c, x.hash, x.key) == |c|
    ensures Find(c + [x], x.hash, x.key) == |c|
  {
    if c != [] {
      assert (c + [x])[1..] == c[1..] + [x];
      FindAppended(c[1..], x);
    }
  }

  lemma {:induction false} FindReplaced<V(!new)>(c: seq<Cell<V>>, i: nat, v: V)
    requires i < |c| && i == Find(c, c[i].hash, c[i].key)
    ensures Find(c[i := c[i].(value := v)], c[i].hash, c[i].key) == i
  {
    var d := c[i := c[i].(value := v)];
    assert d[i].hash == c[i].hash && d[i].key == c[i].key;
    assert forall j :: 0 <= j < i ==> d[j] == c[j];
  }

  lemma FitFound<V(!new)>(t: Buckets<V>, h: Hash, key: string, v: V)
    requires Sound(t) && |key| <= KEY_LIMIT
    ensures Lookup(Pushed(t, h, key, v), h, key) == Some(v)
  {
    var b := h(key) % |t|;
    var c, i := t[b], Find(t[b], h(key), key);
    var t' := Stored(t, h, key, v);
    TotalUpdate(t, b, t'[b]);
    if i < |c| {
      FindReplaced(c, i, v);
    } else {
      var x := Cell(h(key), key, v);
      FindAppended(c, x);
      assert t'[b] == c + [x];
      if Total(t') > |t'| - 1 {
        NewestFirst(t', h, b, x);
      }
    }
  }

  // Growth reverses chains, so that the last entry of a chain comes first.
  lemma NewestFirst<V(!new)>(t: Buckets<V>, h: Hash, b: nat, x: Cell<V>)
    requires Placed(t) && b < |t| && t[b] != [] && t[b][|t[b]| - 1] == x && x.hash == h(x.key)
    requires b == x.hash % |t|
    ensures Lookup(Doubled(t), h, x.key) == Some(x.value)
  {
    var j, n := x.hash % (2 * |t|), |t|;
    HalfMod(x.hash, n, b);
    ModIs(b, 0, n, b);
    ModIs(b + n, 1, n, b);
    assert Doubled(t)[j] == Sift(t[b], j, 2 * n);
    assert Doubled(t)[j][0] == x;
  }

  lemma LongLost<V(!new)>(t: Buckets<V>, h: Hash, key: string)
    requires Sound(t) && |key| > KEY_LIMIT
    ensures Lookup(t, h, key).None?
  {
    LongKeyNotIn(t[h(key) % |t|], h(key), key);
  }

  // On every table that a run can reach, cut keys in it or not: a value pushed
  // under a key is found again exactly when the key fits. A longer one is cut
  // when stored and never matches itself.
  lemma FoundAgainIff<V(!new)>(t: Buckets<V>, h: Hash, key: string, v: V)
    requires Sound(t)
    ensures Lookup(Pushed(t, h, key, v), h, key) == Some(v) <==> |key| <= KEY_LIMIT
  {
    if |key| <= KEY_LIMIT {
      FitFound(t, h, key, v);
    } else {
      PushIsSound(t, h, key, v);
      LongLost(Pushed(t, h, key, v), h, key);
    }
  }

  // The table holds the map before and after every operation of the run.
  ghost predicate AlwaysRefines<V(!new)>(t: Buckets<V>, h: Hash, m: map<string, V>, ops: seq<TableOp<V>>)
    decreases |ops|
  {
    && Refines(t, h, m)
    && (ops != [] ==> AlwaysRefines(TableStep(t, h, ops[0]).0, h, MapStep(m, ops[0]), ops[1..]))
  }

  lemma StepRefinesIff<V(!new)>(t: Buckets<V>, h: Hash, m: map<string, V>, op: TableOp<V>)
    requires Refines(t, h, m) && Roomy(t)
    ensures Refines(TableStep(t, h, op).0, h, MapStep(m, op)) <==> (op.Put? ==> |op.key| <= KEY_LIMIT)
    ensures (op.Put? ==> |op.key| <= KEY_LIMIT) ==> Roomy(TableStep(t, h, op).0)
  {
    match op
    case Del(key) => PopRefines(t, h, m, key);
    case Put(key, v) =>
      if |key| <= KEY_LIMIT {
        PushRefines(t, h, m, key, v);
      } else {
        HonestIsSound(t, h);
        FoundAgainIff(t, h, key, v);
        assert Get(m[key := v], key) == Some(v);
      }
  }

  // The table is the map throughout a run exactly when every key pushed has at
  // most 30 characters.
  lemma {:induction false} RunRefinesIff<V(!new)>(t: Buckets<V>, h: Hash, m: map<string, V>, ops: seq<TableOp<V>>)
    requires Refines(t, h, m) && Roomy(t)
    ensures AlwaysRefines(t, h, m, ops) <==> ShortKeys(ops)
    decreases |ops|
  {
    if ops != [] {
      var op, rest := ops[0], ops[1..];
      StepRefinesIff(t, h, m, op);
      assert ShortKeys(ops) <==> (op.Put? ==> |op.key| <= KEY_LIMIT) && ShortKeys(rest) by {
        assert forall i :: 0 <= i < |rest| ==> rest[i] == ops[i + 1];
        assert ShortKeys(rest) ==> forall i :: 1 <= i < |ops| ==> ops[i] == rest[i - 1];
      }
      if op.Put? ==> |op.key| <= KEY_LIMIT {
        RunRefinesIff(TableStep(t, h, op).0, h, MapStep(m, op), rest);
      }
    }
  }
}
