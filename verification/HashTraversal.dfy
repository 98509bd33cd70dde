// A traversal whose callback may remove the entry it is called on.
module HashTraversal {
  import opened Common
  import opened HashModel
  import opened HashRefinement

  lemma {:induction false} KeptMembers<V(!new)>(c: seq<Cell<V>>, pops: Cell<V> -> bool)
    ensures forall x :: x in Kept(c, pops) <==> x in c && !pops(x)
  {
    if c != [] {
      KeptMembers(c[..|c| - 1], pops);
      assert c == c[..|c| - 1] + [c[|c| - 1]];
    }
  }

  // Every entry the callback pops is the one hash_pop finds under its key: its
  // key was not cut, and nothing in front of it in its bucket matches.
  ghost predicate PopsItself<V>(t: Buckets<V>, h: Hash, pops: Cell<V> -> bool) {
    && Placed(t)
    && forall b, i :: 0 <= b < |t| && 0 <= i < |t[b]| && pops(t[b][i]) ==> FirstMatch(t[b], h, i)
  }

  ghost predicate FirstMatch<V>(c: seq<Cell<V>>, h: Hash, i: nat)
    requires i < |c|
  {
    c[i].hash == h(c[i].key) && forall j :: 0 <= j < i ==> c[j].hash != c[i].hash || c[j].key != c[i].key
  }

  lemma HonestPopsItself<V(!new)>(t: Buckets<V>, h: Hash, pops: Cell<V> -> bool)
    requires Honest(t, h)
    ensures PopsItself(t, h, pops)
  {
    HonestIsPlaced(t, h);
    forall b, i | 0 <= b < |t| && 0 <= i < |t[b]| && pops(t[b][i]) ensures FirstMatch(t[b], h, i) {
      assert HonestChain(t[b], h, b, |t|);
    }
  }

  // In a partly swept chain the current cell is still the first match for its
  // own key.
  lemma FindCurrent<V(!new)>(c: seq<Cell<V>>, h: Hash, p: nat, pops: Cell<V> -> bool)
    requires p < |c| && FirstMatch(c, h, p)
    ensures Find(Kept(c[..p], pops) + c[p..], h(c[p].key), c[p].key) == |Kept(c[..p], pops)|
  {
    var k := Kept(c[..p], pops);
    KeptMembers(c[..p], pops);
    forall j | 0 <= j < |k| ensures k[j].hash != c[p].hash || k[j].key != c[p].key {
      assert k[j] in c[..p];
      var q :| 0 <= q < p && c[q] == k[j];
    }
    assert (k + c[p..])[|k|] == c[p];
  }

  lemma KeptNext<V>(c: seq<Cell<V>>, p: nat, pops: Cell<V> -> bool)
    requires p < |c|
    ensures Kept(c[..p + 1], pops) == if pops(c[p]) then Kept(c[..p], pops) else Kept(c[..p], pops) + [c[p]]
  {
    assert c[..p + 1][..p] == c[..p];
  }

  lemma SweptAdvance<V>(t: Buckets<V>, i: nat, p: nat, pops: Cell<V> -> bool)
    requires i < |t| && p < |t[i]|
    ensures Swept(t, i, p + 1, pops) == Swept(t, i, p, pops)[i := Kept(t[i][..p + 1], pops) + t[i][p + 1..]]
  {
  }

  lemma PopCurrent<V>(s: Buckets<V>, h: Hash, i: nat, k: seq<Cell<V>>, rest: seq<Cell<V>>)
    requires i < |s| && rest != [] && s[i] == k + rest
    requires h(rest[0].key) % |s| == i && Find(s[i], h(rest[0].key), rest[0].key) == |k|
    ensures Popped(s, h, rest[0].key) == s[i := k + rest[1..]]
  {
    PopAt(s, h, rest[0].key, i, |k|);
    assert RemoveAt(s[i], |k|) == k + rest[1..];
  }

  // One call of the callback: the table loses the entry through hash_pop, or
  // stays as it is.
  lemma SweepStep<V(!new)>(t: Buckets<V>, h: Hash, i: nat, p: nat, pops: Cell<V> -> bool)
    requires PopsItself(t, h, pops) && i < |t| && p < |t[i]|
    ensures Swept(t, i, p + 1, pops) ==
            if pops(t[i][p]) then Popped(Swept(t, i, p, pops), h, t[i][p].key) else Swept(t, i, p, pops)
  {
    var c := t[i];
    var k, s := Kept(c[..p], pops), Swept(t, i, p, pops);
    SweptAdvance(t, i, p, pops);
    KeptNext(c, p, pops);
    assert c[p..] == [c[p]] + c[p + 1..];
    if pops(c[p]) {
      FindCurrent(c, h, p, pops);
      PopCurrent(s, h, i, k, c[p..]);
    } else {
      assert s[i] == k + [c[p]] + c[p + 1..];
      assert s[i := s[i]] == s;
    }
  }

  lemma SweptBucket<V>(t: Buckets<V>, i: nat, pops: Cell<V> -> bool)
    requires i < |t|
    ensures Swept(t, i, |t[i]|, pops) == Swept(t, i + 1, 0, pops)
    ensures Passed(t, i, |t[i]|) == Passed(t, i + 1, 0)
  {
    var c := t[i];
    assert c[..|c|] == c && c[|c|..] == [];
    assert t[..i + 1][..i] == t[..i];
    assert i + 1 < |t| ==> t[i + 1][..0] == [] && t[i + 1][0..] == t[i + 1];
    forall b | 0 <= b < |t| ensures Swept(t, i, |c|, pops)[b] == Swept(t, i + 1, 0, pops)[b] {
      if b == i {
        assert Swept(t, i, |c|, pops)[b] == Kept(c, pops) + [];
      }
    }
  }

  lemma PassedFrom<V>(t: Buckets<V>, i: nat, p: nat)
    requires i < |t| && p <= |t[i]|
    ensures Passed(t, i, p) == Passed(t, i, 0) + t[i][..p]
    ensures t[i][..|t[i]|] == t[i]
  {
  }

  lemma PrefixNext<T>(s: seq<T>, p: nat)
    requires p < |s|
    ensures s[..p + 1] == s[..p] + [s[p]]
  {
  }

  lemma SweptStart<V>(t: Buckets<V>, pops: Cell<V> -> bool)
    requires t != []
    ensures Swept(t, 0, 0, pops) == t
    ensures Passed(t, 0, 0) == []
    ensures Passed(t, |t|, 0) == Flat(t)
  {
    assert t[0][..0] == [] && t[0][0..] == t[0];
    assert t[..|t|] == t;
  }

  ghost function PoppedKeys<V(!new)>(cs: seq<Cell<V>>, pops: Cell<V> -> bool): set<string> {
    set i | 0 <= i < |cs| && pops(cs[i]) :: cs[i].key
  }

  // After any part of a traversal the table holds the map without the keys the
  // callback has popped.
  ghost predicate SweptTo<V(!new)>(t: Buckets<V>, h: Hash, m: map<string, V>, i: nat, p: nat, pops: Cell<V> -> bool)
    requires i <= |t| && p <= (if i < |t| then |t[i]| else 0)
  {
    && Refines(Swept(t, i, p, pops), h, m - PoppedKeys(Passed(t, i, p), pops))
    && Roomy(Swept(t, i, p, pops))
  }

  lemma SweepStarts<V(!new)>(t: Buckets<V>, h: Hash, m: map<string, V>, pops: Cell<V> -> bool)
    requires Refines(t, h, m) && Roomy(t)
    ensures SweptTo(t, h, m, 0, 0, pops)
  {
    SweptStart(t, pops);
    MinusNothing(m, PoppedKeys<V>([], pops));
  }

  lemma SweepNextBucket<V(!new)>(t: Buckets<V>, h: Hash, m: map<string, V>, i: nat, pops: Cell<V> -> bool)
    requires i < |t| && SweptTo(t, h, m, i, |t[i]|, pops)
    ensures SweptTo(t, h, m, i + 1, 0, pops)
  {
    SweptBucket(t, i, pops);
  }

  lemma {:induction false} SweepAlong<V(!new)>(t: Buckets<V>, h: Hash, m: map<string, V>, i: nat, p: nat,
                                               pops: Cell<V> -> bool)
    requires Honest(t, h) && i < |t| && p <= |t[i]| && SweptTo(t, h, m, i, 0, pops)
    ensures SweptTo(t, h, m, i, p, pops)
  {
    if p > 0 {
      SweepAlong(t, h, m, i, p - 1, pops);
      SweepOneMore(t, h, m, i, p - 1, p, pops);
    }
  }

  lemma {:induction false} SweepAcross<V(!new)>(t: Buckets<V>, h: Hash, m: map<string, V>, i: nat,
                                                pops: Cell<V> -> bool)
    requires Refines(t, h, m) && Roomy(t) && i <= |t|
    ensures SweptTo(t, h, m, i, 0, pops)
  {
    if i > 0 {
      SweepAcross(t, h, m, i - 1, pops);
      SweepAlong(t, h, m, i - 1, |t[i - 1]|, pops);
      SweepNextBucket(t, h, m, i - 1, pops);
    } else {
      SweepStarts(t, h, m, pops);
    }
  }

  lemma SweepRefines<V(!new)>(t: Buckets<V>, h: Hash, m: map<string, V>, i: nat, p: nat, pops: Cell<V> -> bool)
    requires Refines(t, h, m) && Roomy(t) && i <= |t| && p <= (if i < |t| then |t[i]| else 0)
    ensures SweptTo(t, h, m, i, p, pops)
  {
    SweepAcross(t, h, m, i, pops);
    if i < |t| {
      SweepAlong(t, h, m, i, p, pops);
    }
  }

  lemma MinusNothing<V>(m: map<string, V>, s: set<string>)
    requires s == {}
    ensures m - s == m
  {
  }

  lemma SweepOneMore<V(!new)>(t: Buckets<V>, h: Hash, m: map<string, V>, i: nat, p: nat, next: nat,
                              pops: Cell<V> -> bool)
    requires Honest(t, h) && i < |t| && next == p + 1 <= |t[i]| && SweptTo(t, h, m, i, p, pops)
    ensures SweptTo(t, h, m, i, next, pops)
  {
    var cell, gone := t[i][p], PoppedKeys(Passed(t, i, p), pops);
    HonestPopsItself(t, h, pops);
    SweepStep(t, h, i, p, pops);
    PassedNext(t, i, p, pops);
    if pops(cell) {
      DropKey(Swept(t, i, p, pops), h, m, gone, cell.key);
    } else {
      assert gone + {} == gone;
    }
  }

  lemma DropKey<V(!new)>(t: Buckets<V>, h: Hash, m: map<string, V>, gone: set<string>, key: string)
    requires Refines(t, h, m - gone) && Roomy(t)
    ensures Refines(Popped(t, h, key), h, m - (gone + {key})) && Roomy(Popped(t, h, key))
  {
    PopRefines(t, h, m - gone, key);
    MinusTwice(m, gone, {key});
  }

  lemma MinusTwice<V>(m: map<string, V>, s: set<string>, t: set<string>)
    ensures m - s - t == m - (s + t)
  {
  }

  lemma PassedNext<V(!new)>(t: Buckets<V>, i: nat, p: nat, pops: Cell<V> -> bool)
    requires i < |t| && p < |t[i]|
    ensures Passed(t, i, p + 1) == Passed(t, i, p) + [t[i][p]]
    ensures PoppedKeys(Passed(t, i, p + 1), pops) ==
            PoppedKeys(Passed(t, i, p), pops) + if pops(t[i][p]) then {t[i][p].key} else {}
  {
    assert t[i][..p + 1] == t[i][..p] + [t[i][p]];
    PopOneMore(Passed(t, i, p), t[i][p], pops);
  }

  lemma PopOneMore<V(!new)>(cs: seq<Cell<V>>, cell: Cell<V>, pops: Cell<V> -> bool)
    ensures PoppedKeys(cs + [cell], pops) == PoppedKeys(cs, pops) + if pops(cell) then {cell.key} else {}
  {
    var d := cs + [cell];
    assert forall i :: 0 <= i < |cs| ==> d[i] == cs[i];
    assert d[|cs|] == cell;
  }

  // ----- A complete traversal meets every binding exactly once -----

  lemma {:induction false} FlatMembers<V(!new)>(t: Buckets<V>)
    ensures forall x :: x in Flat(t) <==> exists b :: 0 <= b < |t| && x in t[b]
  {
    if t != [] {
      var front := t[..|t| - 1];
      FlatMembers(front);
      forall x ensures x in Flat(t) <==> exists b :: 0 <= b < |t| && x in t[b] {
        if b :| 0 <= b < |t| && x in t[b] {
          assert b < |t| - 1 ==> front[b] == t[b];
        }
        if b :| 0 <= b < |front| && x in front[b] {
          assert t[b] == front[b];
        }
      }
    }
  }

  ghost predicate DistinctKeys<V>(cs: seq<Cell<V>>) {
    forall i, j :: 0 <= i < j < |cs| ==> cs[i].key != cs[j].key
  }

  lemma {:induction false} FlatKeysDistinct<V(!new)>(t: Buckets<V>, h: Hash, n: nat)
    requires n > 0 && forall b :: 0 <= b < |t| ==> HonestChain(t[b], h, b, n)
    ensures DistinctKeys(Flat(t))
  {
    if t != [] {
      var last := |t| - 1;
      var front := t[..last];
      FlatKeysDistinct(front, h, n);
      FlatMembers(front);
      var f, c := Flat(front), t[last];
      forall i, j | 0 <= i < |f| && 0 <= j < |c| ensures f[i].key != c[j].key {
        assert f[i] in f;
        var b :| 0 <= b < |front| && f[i] in front[b];
        assert HonestChain(t[b], h, b, n) && HonestChain(t[last], h, last, n);
      }
    }
  }

  // The cells met are the bindings of the map, each of them once.
  lemma TraversalMeetsAll<V(!new)>(t: Buckets<V>, h: Hash, m: map<string, V>)
    requires Refines(t, h, m)
    ensures DistinctKeys(Flat(t))
    ensures forall key :: key in m ==> Cell(h(key), key, m[key]) in Flat(t)
    ensures forall x :: x in Flat(t) ==> x.key in m && m[x.key] == x.value
  {
    FlatKeysDistinct(t, h, |t|);
    FlatMembers(t);
    forall key | key in m ensures Cell(h(key), key, m[key]) in Flat(t) {
      assert Lookup(t, h, key) == Get(m, key);
      var b := h(key) % |t|;
      ValueIsMember(t[b], h, b, |t|, key);
    }
    forall x | x in Flat(t) ensures x.key in m && m[x.key] == x.value {
      var b :| 0 <= b < |t| && x in t[b];
      assert HonestChain(t[b], h, b, |t|);
      ValueIsMember(t[b], h, b, |t|, x.key);
      assert Lookup(t, h, x.key) == Get(m, x.key);
    }
  }
}
