// What hash.c computes, as functions on its buckets: each bucket is the chain
// of cells hanging off one array slot, head first.
module HashModel {
  import opened Common

  datatype Cell<V> = Cell(hash: uint32, key: string, value: V)

  type Buckets<V> = seq<seq<Cell<V>>>

  type Hash = string -> uint32

  // A node's `key` is a 32-byte buffer filled by strncpy with a limit of 30.
  const KEY_LIMIT := 30

  function StoredKey(key: string): string {
    if |key| <= KEY_LIMIT then key else key[..KEY_LIMIT]
  }

  // ----- Masks -----

  predicate IsPow2(n: nat) {
    n == 1 || (n > 1 && n % 2 == 0 && IsPow2(n / 2))
  }

  // a & b
  function BitAnd(a: nat, b: nat): nat {
    if a == 0 || b == 0 then 0 else (a % 2) * (b % 2) + 2 * BitAnd(a / 2, b / 2)
  }

  lemma MulGrows(d: int, n: nat)
    ensures d >= 1 ==> d * n >= n
    ensures d <= -1 ==> -d * n >= n
  {
  }

  lemma ModIs(x: nat, q: nat, n: nat, r: nat)
    requires r < n && x == q * n + r
    ensures x % n == r
  {
    MulGrows(q - x / n, n);
    assert (q - x / n) * n == x % n - r;
  }

  lemma ModOfDouble(h: nat, n: nat)
    requires n > 0
    ensures h % (2 * n) == h % 2 + 2 * (h / 2 % n)
  {
    var q, r := h / 2 / n, h / 2 % n;
    assert h / 2 == q * n + r;
    assert h == 2 * (q * n + r) + h % 2;
    assert 2 * (q * n) == q * (2 * n);
    ModIs(h, q, 2 * n, 2 * r + h % 2);
  }

  // With a power-of-two number of buckets, masking is taking the remainder.
  lemma {:induction false} MaskIsMod(h: nat, n: nat)
    requires IsPow2(n)
    ensures BitAnd(h, n - 1) == h % n
  {
    if n > 1 {
      var m := n / 2;
      MaskIsMod(h / 2, m);
      ModOfDouble(h, m);
      assert n == 2 * m && (n - 1) / 2 == m - 1 && (n - 1) % 2 == 1;
    }
  }

  // ----- The operations -----

  // Where the walk of find_entry stops: the first match, or the chain's end.
  function Find<V>(chain: seq<Cell<V>>, hash: uint32, key: string): (i: nat)
    ensures i <= |chain|
    ensures i < |chain| ==> chain[i].hash == hash && chain[i].key == key
    ensures forall j :: 0 <= j < i ==> !(chain[j].hash == hash && chain[j].key == key)
  {
    if chain == [] || (chain[0].hash == hash && chain[0].key == key) then 0
    else 1 + Find(chain[1..], hash, key)
  }

  function Lookup<V>(t: Buckets<V>, h: Hash, key: string): Option<V>
    requires t != []
  {
    ValueIn(t[h(key) % |t|], h, key)
  }

  function ValueIn<V>(chain: seq<Cell<V>>, h: Hash, key: string): Option<V> {
    var i := Find(chain, h(key), key);
    if i < |chain| then Some(chain[i].value) else None
  }

  function Total<V>(t: Buckets<V>): nat {
    if t == [] then 0 else |t[0]| + Total(t[1..])
  }

  // The cells of a chain that belong to bucket `j` of `size`, last first.
  function Sift<V>(chain: seq<Cell<V>>, j: nat, size: nat): (r: seq<Cell<V>>)
    requires size > 0
  {
    if chain == [] then []
    else
      var last := chain[|chain| - 1];
      var rest := Sift(chain[..|chain| - 1], j, size);
      if last.hash % size == j then [last] + rest else rest
  }

  // __expand_array: bucket `j` of the doubled array takes its cells from the
  // single bucket `j % |t|`, in reverse order.
  function Doubled<V>(t: Buckets<V>): (r: Buckets<V>)
    ensures |r| == 2 * |t|
    ensures forall j :: 0 <= j < |r| ==> r[j] == Sift(t[j % |t|], j, 2 * |t|)
  {
    seq(2 * |t|, j requires 0 <= j < 2 * |t| => Sift(t[j % |t|], j, 2 * |t|))
  }

  // The doubled array after the buckets below `i` and the first `p` cells of
  // bucket `i` have been moved.
  function Moved<V>(t: Buckets<V>, i: nat, p: nat): (r: Buckets<V>)
    requires i < |t| ==> p <= |t[i]|
    ensures |r| == 2 * |t|
  {
    seq(2 * |t|, j requires 0 <= j < 2 * |t| =>
      if j % |t| < i then Sift(t[j % |t|], j, 2 * |t|)
      else if j % |t| == i then Sift(t[i][..p], j, 2 * |t|)
      else [])
  }

  // find_entry and the link it writes, for a non-null value, before any growth.
  function Stored<V>(t: Buckets<V>, h: Hash, key: string, v: V): Buckets<V>
    requires t != []
  {
    var b := h(key) % |t|;
    var i := Find(t[b], h(key), key);
    if i < |t[b]| then t[b := t[b][i := t[b][i].(value := v)]]
    else t[b := t[b] + [Cell(h(key), StoredKey(key), v)]]
  }

  // hash_push with a value
  function Pushed<V>(t: Buckets<V>, h: Hash, key: string, v: V): Buckets<V>
    requires t != []
  {
    var t' := Stored(t, h, key, v);
    if Total(t') > |t'| - 1 then Doubled(t') else t'
  }

  // hash_push with NULL, which is hash_pop
  function Popped<V>(t: Buckets<V>, h: Hash, key: string): Buckets<V>
    requires t != []
  {
    var b := h(key) % |t|;
    var i := Find(t[b], h(key), key);
    if i < |t[b]| then t[b := RemoveAt(t[b], i)] else t
  }

  lemma PopAt<V>(t: Buckets<V>, h: Hash, key: string, b: nat, i: nat)
    requires t != [] && b == h(key) % |t| && i == Find(t[b], h(key), key)
    ensures Popped(t, h, key) == if i < |t[b]| then t[b := RemoveAt(t[b], i)] else t
    ensures Lookup(t, h, key) == if i < |t[b]| then Some(t[b][i].value) else None
  {
  }

  // ----- Traversal: the callback may remove the entry it is called on -----

  // The cells of a chain that the callback leaves in place.
  function Kept<V>(c: seq<Cell<V>>, pops: Cell<V> -> bool): seq<Cell<V>> {
    if c == [] then []
    else
      var last := c[|c| - 1];
      if pops(last) then Kept(c[..|c| - 1], pops) else Kept(c[..|c| - 1], pops) + [last]
  }

  // The table once the traversal has passed `p` cells of bucket `i`.
  function Swept<V>(t: Buckets<V>, i: nat, p: nat, pops: Cell<V> -> bool): (r: Buckets<V>)
    requires i < |t| ==> p <= |t[i]|
    ensures |r| == |t|
  {
    seq(|t|, b requires 0 <= b < |t| =>
      if b < i then Kept(t[b], pops)
      else if b == i then Kept(t[i][..p], pops) + t[i][p..]
      else t[b])
  }

  function Flat<V>(t: Buckets<V>): seq<Cell<V>> {
    if t == [] then [] else Flat(t[..|t| - 1]) + t[|t| - 1]
  }

  // The cells a traversal has called back on by then.
  function Passed<V>(t: Buckets<V>, i: nat, p: nat): seq<Cell<V>>
    requires i <= |t| && (i < |t| ==> p <= |t[i]|)
  {
    Flat(t[..i]) + if i < |t| then t[i][..p] else []
  }

  // ----- Counting -----

  lemma {:induction false} TotalUpdate<V>(t: Buckets<V>, b: nat, chain: seq<Cell<V>>)
    requires b < |t|
    ensures Total(t[b := chain]) == Total(t) - |t[b]| + |chain|
  {
    if b == 0 {
      assert t[0 := chain][1..] == t[1..];
    } else {
      TotalUpdate(t[1..], b - 1, chain);
      assert t[b := chain][1..] == t[1..][b - 1 := chain];
    }
  }

  lemma {:induction false} TotalConcat<V>(s: Buckets<V>, t: Buckets<V>)
    ensures Total(s + t) == Total(s) + Total(t)
  {
    if s == [] {
      assert s + t == t;
    } else {
      TotalConcat(s[1..], t);
      assert (s + t)[1..] == s[1..] + t;
    }
  }

  lemma {:induction false} TotalSplit<V>(s: Buckets<V>, t: Buckets<V>, u: Buckets<V>)
    requires |s| == |t| == |u| && forall j :: 0 <= j < |s| ==> |s[j]| + |t[j]| == |u[j]|
    ensures Total(s) + Total(t) == Total(u)
  {
    if s != [] {
      TotalSplit(s[1..], t[1..], u[1..]);
    }
  }

  lemma TwiceTimes(p: nat, n: nat)
    ensures (2 * p) * n == p * (2 * n)
  {
  }

  lemma {:induction false} AllEmpty<V>(t: Buckets<V>)
    requires forall b :: 0 <= b < |t| ==> t[b] == []
    ensures Total(t) == 0
  {
    if t != [] {
      AllEmpty(t[1..]);
    }
  }

  lemma HalfMod(h: nat, n: nat, j: nat)
    requires n > 0 && j < n && h % n == j
    ensures h % (2 * n) == j || h % (2 * n) == j + n
  {
    var q := h / n;
    assert h == q * n + j;
    var a := q / 2;
    if q == 2 * a {
      TwiceTimes(a, n);
      ModIs(h, a, 2 * n, j);
    } else {
      assert q == 2 * a + 1;
      OddTimes(a, n);
      ModIs(h, a, 2 * n, j + n);
    }
  }

  lemma OddTimes(a: nat, n: nat)
    ensures (2 * a + 1) * n == a * (2 * n) + n
  {
  }

  lemma {:induction false} SiftSplits<V>(chain: seq<Cell<V>>, j: nat, n: nat)
    requires j < n && forall i :: 0 <= i < |chain| ==> chain[i].hash % n == j
    ensures |Sift(chain, j, 2 * n)| + |Sift(chain, j + n, 2 * n)| == |chain|
  {
    if chain != [] {
      SiftSplits(chain[..|chain| - 1], j, n);
      HalfMod(chain[|chain| - 1].hash, n, j);
    }
  }

  // Every cell hangs off the bucket its hash selects.
  ghost predicate Placed<V>(t: Buckets<V>) {
    t != [] && forall b, i :: 0 <= b < |t| && 0 <= i < |t[b]| ==> t[b][i].hash % |t| == b
  }

  lemma DoublingKeepsTotal<V>(t: Buckets<V>)
    requires Placed(t)
    ensures Total(Doubled(t)) == Total(t)
  {
    var d, n := Doubled(t), |t|;
    var lower, upper := d[..n], d[n..];
    assert d == lower + upper;
    TotalConcat(lower, upper);
    forall j | 0 <= j < n ensures |lower[j]| + |upper[j]| == |t[j]| {
      HalvesOf(t, j, n);
    }
    TotalSplit(lower, upper, t);
  }

  // The two buckets that bucket `j` is split into.
  lemma HalvesOf<V>(t: Buckets<V>, j: nat, n: nat)
    requires Placed(t) && j < n == |t|
    ensures |Doubled(t)[j]| + |Doubled(t)[j + n]| == |t[j]|
  {
    ModIs(j, 0, n, j);
    ModIs(j + n, 1, n, j);
    SiftSplits(t[j], j, n);
  }

  lemma MoveNext<V>(t: Buckets<V>, i: nat, p: nat)
    requires Placed(t) && i < |t| && p < |t[i]|
    ensures var j := t[i][p].hash % (2 * |t|);
            Moved(t, i, p + 1) == Moved(t, i, p)[j := [t[i][p]] + Moved(t, i, p)[j]]
  {
    var c, n := t[i], 2 * |t|;
    var idx := c[p].hash % n;
    HalfMod(c[p].hash, |t|, i);
    ModIs(idx, if idx == i then 0 else 1, |t|, i);
    var m, m' := Moved(t, i, p), Moved(t, i, p + 1);
    forall j | 0 <= j < n ensures m'[j] == if j == idx then [c[p]] + m[j] else m[j] {
      if j % |t| == i {
        assert c[..p + 1][..p] == c[..p];
      }
    }
  }

  lemma MovedBucket<V>(t: Buckets<V>, i: nat)
    requires i < |t|
    ensures Moved(t, i, |t[i]|) == Moved(t, i + 1, 0)
  {
    assert t[i][..|t[i]|] == t[i];
    assert i + 1 < |t| ==> t[i + 1][..0] == [];
  }

  lemma MovedAll<V>(t: Buckets<V>)
    requires t != []
    ensures Moved(t, |t|, 0) == Doubled(t)
    ensures forall j :: 0 <= j < 2 * |t| ==> Moved(t, 0, 0)[j] == []
  {
    assert t[0][..0] == [];
  }

  // ----- The size of a new table -----

  lemma {:induction false} Pow2Gap(m: nat, n: nat)
    requires IsPow2(m) && IsPow2(n) && m < n
    ensures 2 * m <= n
  {
    if m > 1 {
      Pow2Gap(m / 2, n / 2);
    }
  }

  // Four times a size wraps to something far smaller.
  lemma WrappedSize(size: uint32, wanted: nat, n: nat)
    requires wanted == size * 4 % TWO_32 / 3
    requires wanted <= n <= 0x8000_0000 && (wanted <= 0x4000_0000 ==> n <= 0x4000_0000)
    ensures n >= size * 4 / 3 <==> size < 0x4000_0000
  {
    var wraps := size * 4 / TWO_32;
    assert size * 4 == wraps * TWO_32 + size * 4 % TWO_32;
  }

  // The first half of hash_create: the mask of a table asked to hold `size`
  // entries, in 32-bit arithmetic. The loop ends, the shift never overflows,
  // and the array is a power of two. It is as large as the load factor of 0.75
  // asks for exactly when `size * 4` does not wrap.
  method MaskFor(size: uint32) returns (max: nat)
    ensures IsPow2(max + 1) && max + 1 <= 0x8000_0000
    ensures size == 0 ==> max == 15
    ensures max + 1 >= size * 4 / 3 <==> size < 0x4000_0000
    ensures 0 < size < 0x4000_0000 && max > 0 ==> (max + 1) / 2 < size * 4 / 3
  {
    if size == 0 {
      assert IsPow2(4);
      return 15;
    }
    var wanted := size * 4 % TWO_32 / 3;
    var maxSize := RoundUp(wanted);
    WrappedSize(size, wanted, maxSize);
    return maxSize - 1;
  }

  lemma NextPower(m: nat, wanted: nat, p30: nat, p31: nat)
    requires IsPow2(m) && IsPow2(p30) && IsPow2(p31) && p31 == 2 * p30 && m < wanted < p31
    ensures IsPow2(2 * m) && 2 * m <= p31 && (wanted <= p30 ==> 2 * m <= p30)
  {
    DoublePow2(m);
    Pow2Gap(m, p31);
    if m < p30 {
      Pow2Gap(m, p30);
    }
  }

  lemma DoublePow2(m: nat)
    requires IsPow2(m)
    ensures IsPow2(2 * m)
  {
    assert 2 * m / 2 == m;
  }

  lemma ShiftIsExact(m: nat)
    requires 2 * m < TWO_32
    ensures m * 2 % TWO_32 == 2 * m
  {
  }

  // The loop of hash_create: the least power of two that is at least `wanted`.
  method RoundUp(wanted: uint32) returns (maxSize: uint32)
    requires wanted < 0x8000_0000
    ensures IsPow2(maxSize) && maxSize >= wanted
    ensures maxSize > 1 ==> maxSize / 2 < wanted
    ensures maxSize <= 0x8000_0000 && (wanted <= 0x4000_0000 ==> maxSize <= 0x4000_0000)
  {
    ghost var p30, p31 := LargePowers();
    maxSize := 1;
    while maxSize < wanted
      invariant IsPow2(maxSize) && maxSize <= p31
      invariant wanted <= p30 ==> maxSize <= p30
      invariant maxSize > 1 ==> maxSize / 2 < wanted
      decreases wanted - maxSize
    {
      NextPower(maxSize, wanted, p30, p31);
      ShiftIsExact(maxSize);
      maxSize := maxSize * 2 % TWO_32;
    }
  }

  lemma {:induction false} ProductIsPow2(m: nat, n: nat)
    requires IsPow2(m) && IsPow2(n)
    ensures IsPow2(m * n)
  {
    if m > 1 {
      ProductIsPow2(m / 2, n);
      assert m * n == 2 * (m / 2 * n);
    }
  }

  lemma LargePowers() returns (p30: nat, p31: nat)
    ensures p30 == 0x4000_0000 && p31 == 0x8000_0000 && IsPow2(p30) && IsPow2(p31)
  {
    p30, p31 := 0x4000_0000, 0x8000_0000;
    assert IsPow2(0x40) && IsPow2(0x80) && IsPow2(0x100);
    ProductIsPow2(0x100, 0x100);
    ProductIsPow2(0x1_0000, 0x100);
    ProductIsPow2(0x100_0000, 0x40);
    ProductIsPow2(0x100_0000, 0x80);
  }
}
