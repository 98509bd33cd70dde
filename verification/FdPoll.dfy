// The descriptor table of the engine: registrations in a hash table, and one
// pass over the readable ones.
module FdPoll {
  import opened Common
  import opened HashModel
  import opened HashRefinement
  import opened HashTraversal
  import HashTable
  import opened FdModel

  // The entries popped during a pass, and those called back.
  function Expires(ready: set<nat>): Cell<EngineFd> -> bool {
    (c: Cell<EngineFd>) => c.value.fd in ready && c.value.temporary
  }

  // The readable entries among `cs`, in order.
  function ReadableOf(cs: seq<Cell<EngineFd>>, ready: set<nat>): seq<EngineFd> {
    if cs == [] then []
    else
      var last := cs[|cs| - 1].value;
      var front := ReadableOf(cs[..|cs| - 1], ready);
      if last.fd in ready then front + [last] else front
  }

  lemma {:induction false} ReadableAre(cs: seq<Cell<EngineFd>>, ready: set<nat>, m: FdMap)
    requires KeysMatch(m) && DistinctKeys(cs)
    requires forall x :: x in cs ==> x.key in m && m[x.key] == x.value
    ensures Distinct(ReadableOf(cs, ready))
    ensures forall e: EngineFd :: e in ReadableOf(cs, ready) <==> e.fd in ready && exists x :: x in cs && x.value == e
  {
    if cs != [] {
      var front, last := cs[..|cs| - 1], cs[|cs| - 1];
      assert cs == front + [last];
      ReadableAre(front, ready, m);
      var r := ReadableOf(front, ready);
      forall i | 0 <= i < |r| ensures r[i] != last.value {
        assert r[i] in r;
        var x :| x in front && x.value == r[i];
        var k :| 0 <= k < |front| && front[k] == x;
        assert cs[k].key != last.key;
        assert last in cs && x in cs;
      }
    }
  }

  lemma PassIsStep(cs: seq<Cell<EngineFd>>, m: FdMap, ready: set<nat>)
    requires KeysMatch(m)
    requires forall key :: key in m ==> Cell(FdHash(key), key, m[key]) in cs
    requires forall x :: x in cs ==> x.key in m && m[x.key] == x.value
    ensures PoppedKeys(cs, Expires(ready)) == Expired(m, ready)
    ensures forall e: EngineFd ::
              (e.fd in ready && exists x :: x in cs && x.value == e) <==> Calls(m, FdOp.Readable(ready), e)
  {
    var p := PoppedKeys(cs, Expires(ready));
    forall k ensures k in p <==> k in Expired(m, ready) {
      if k in p {
        var i :| 0 <= i < |cs| && Expires(ready)(cs[i]) && cs[i].key == k;
        assert cs[i] in cs;
      }
      if k in Expired(m, ready) {
        var x := Cell(FdHash(k), k, m[k]);
        var i :| 0 <= i < |cs| && cs[i] == x;
        assert Expires(ready)(cs[i]);
      }
    }
    forall e: EngineFd
      ensures (e.fd in ready && exists x :: x in cs && x.value == e) <==> Calls(m, FdOp.Readable(ready), e)
    {
      if Calls(m, FdOp.Readable(ready), e) {
        var key := Decimal(e.fd);
        assert Cell(FdHash(key), key, m[key]) in cs;
      }
      if x :| x in cs && x.value == e {
        assert m[x.key] == e && x.key == Decimal(e.fd);
      }
    }
  }

  // The buckets hold the registrations `m`, each under its own key.
  ghost predicate Registers(t: Buckets<EngineFd>, m: FdMap) {
    Refines(t, FdHash, m) && KeysMatch(m) && Roomy(t)
  }

  lemma AddRegisters(t: Buckets<EngineFd>, m: FdMap, e: EngineFd)
    requires Registers(t, m) && e.fd < 0x8000_0000
    ensures Registers(HashModel.Pushed(t, FdHash, Decimal(e.fd), e), FdStep(m, FdOp.Add(e)))
  {
    DescriptorKeyFits(e.fd);
    PushRefines(t, FdHash, m, Decimal(e.fd), e);
  }

  lemma DelRegisters(t: Buckets<EngineFd>, m: FdMap, fd: nat)
    requires Registers(t, m)
    ensures Registers(HashModel.Popped(t, FdHash, Decimal(fd)), FdStep(m, FdOp.Del(fd)))
    ensures Lookup(t, FdHash, Decimal(fd)) == Get(m, Decimal(fd))
  {
    PopRefines(t, FdHash, m, Decimal(fd));
  }

  lemma PassRegisters(t: Buckets<EngineFd>, m: FdMap, ready: set<nat>)
    requires Registers(t, m)
    ensures Registers(Swept(t, |t|, 0, Expires(ready)), FdStep(m, FdOp.Readable(ready)))
    ensures Distinct(ReadableOf(Flat(t), ready))
    ensures forall e :: e in ReadableOf(Flat(t), ready) <==> Calls(m, FdOp.Readable(ready), e)
  {
    TraversalMeetsAll(t, FdHash, m);
    SweptStart(t, Expires(ready));
    SweepRefines(t, FdHash, m, |t|, 0, Expires(ready));
    ReadableAre(Flat(t), ready, m);
    PassIsStep(Flat(t), m, ready);
  }

  lemma MaskOf100(max: nat)
    requires IsPow2(max + 1) && (max + 1) / 2 < 133 <= max + 1
    ensures max == 255
  {
    assert IsPow2(256) by {
      assert IsPow2(16);
    }
    if max + 1 < 256 {
      Pow2Gap(max + 1, 256);
    } else if 256 < max + 1 {
      Pow2Gap(256, max + 1);
    }
  }

  class FdTable {
    const table: HashTable.Table<EngineFd>
    ghost var m: FdMap
    ghost var repr: set<object>  // the table and every entry it has allocated

    ghost predicate Valid()
      reads this, repr
    {
      && this !in repr && table in repr && table.buckets in repr
      && table.live <= repr && (forall e :: e in table.freeList ==> e in repr)
      && table.Valid() && table.hashFunc == FdHash
      && Registers(table.cells, m)
    }

    // The table select_engine_create makes.
    constructor ()
      ensures Valid() && m == map[] && fresh(repr) && table.max == 255
    {
      table := new HashTable.Table<EngineFd>(100, FdHash);
      m := map[];
      new;
      repr := {table, table.buckets};
      NewTableIsEmptyMap(table.cells, FdHash);
      MaskOf100(table.max);
    }

    // Keeps `m` and `repr` in step with the table.
    ghost method Record(m': FdMap, repr': set<object>)
      requires table in repr' && table.buckets in repr' && table.Nodes() <= repr' && this !in repr'
      requires table.Valid() && table.hashFunc == FdHash && Registers(table.cells, m')
      modifies this`m, this`repr
      ensures Valid() && m == m' && repr == repr'
    {
      m, repr := m', repr';
      assert forall e :: e in table.freeList ==> e in table.Nodes();
    }

    // __engine_fd_add
    method FdAdd(e: EngineFd)
      requires Valid() && e.fd < 0x8000_0000
      modifies this, repr
      ensures Valid() && fresh(repr - old(repr))
      ensures m == FdStep(old(m), FdOp.Add(e))
      ensures table.cells == HashModel.Pushed(old(table.cells), FdHash, Decimal(e.fd), e)
    {
      AddRegisters(table.cells, m, e);
      Put(e);
      Record(FdStep(m, FdOp.Add(e)), repr + {table.buckets} + table.Nodes());
    }

    // hash_push, in terms of `repr`.
    method Put(e: EngineFd)
      requires Valid()
      modifies repr
      ensures table.Valid() && table.cells == HashModel.Pushed(old(table.cells), FdHash, Decimal(e.fd), e)
      ensures fresh({table.buckets} + table.Nodes() - repr)
    {
      ghost var before := table.Nodes();
      assert before <= repr;
      var _ := table.Push(Decimal(e.fd), e);
      assert table.Nodes() - repr <= table.Nodes() - before;
    }

    // __engine_fd_del
    method FdDel(fd: nat) returns (err: Errno)
      requires Valid()
      modifies this, repr
      ensures Valid() && repr == old(repr) && m == FdStep(old(m), FdOp.Del(fd))
      ensures table.cells == HashModel.Popped(old(table.cells), FdHash, Decimal(fd))
      ensures err == if Decimal(fd) in old(m) then Ok else ErrNotExist
    {
      DelRegisters(table.cells, m, fd);
      var found := table.Pop(Decimal(fd));
      Record(FdStep(m, FdOp.Del(fd)), repr);
      return if found == None then ErrNotExist else Ok;
    }

    // hash_foreach with __fd_isset_foreach: `calls` are the callbacks run, in
    // order. Callbacks do not change the table.
    method FireReadable(ready: set<nat>) returns (calls: seq<EngineFd>)
      requires Valid()
      modifies this, repr
      ensures Valid() && repr == old(repr) && m == FdStep(old(m), FdOp.Readable(ready))
      ensures calls == ReadableOf(Flat(old(table.cells)), ready)
      ensures table.cells == Swept(old(table.cells), |old(table.cells)|, 0, Expires(ready))
      ensures Distinct(calls)
      ensures forall e :: e in calls <==> e.fd in ready && Registered(old(m), e)
    {
      PassRegisters(table.cells, m, ready);
      HonestPopsItself(table.cells, FdHash, Expires(ready));
      var visited := table.ForEach(Expires(ready));
      calls := CallBack(visited, ready);
      Record(FdStep(m, FdOp.Readable(ready)), repr);
    }
  }

  // The callbacks of one pass, in the order the entries are met.
  method CallBack(visited: seq<Cell<EngineFd>>, ready: set<nat>) returns (calls: seq<EngineFd>)
    ensures calls == ReadableOf(visited, ready)
  {
    calls := [];
    for i := 0 to |visited|
      invariant calls == ReadableOf(visited[..i], ready)
    {
      assert visited[..i + 1][..i] == visited[..i];
      if visited[i].value.fd in ready {
        calls := calls + [visited[i].value];
      }
    }
    assert visited[..|visited|] == visited;
  }
}
