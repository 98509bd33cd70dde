// The descriptor table of select.c: keys, hash, and how often a descriptor
// registered once can be called back.
module FdModel {
  import opened Common

  datatype EngineFd = EngineFd(fd: nat, cb: nat, context: nat, temporary: bool)

  // ----- The key: "%d" of the descriptor, hashed by atoi -----

  function Digit(d: nat): char
    requires d < 10
  {
    (d + 48) as char
  }

  function Decimal(n: nat): (r: string)
    ensures r != []
  {
    if n < 10 then [Digit(n)] else Decimal(n / 10) + [Digit(n % 10)]
  }

  predicate IsDigit(c: char) {
    48 <= c as int <= 57
  }

  // atoi on a key without sign or leading blanks: the value of the digits up to
  // the first other character.
  function AtoiFrom(s: string, acc: nat): nat
    decreases |s|
  {
    if s == [] || !IsDigit(s[0]) then acc else AtoiFrom(s[1..], acc * 10 + (s[0] as int - 48))
  }

  // __fd_poll_hash_func
  function FdHash(key: string): uint32 {
    AtoiFrom(key, 0) % TWO_32
  }

  function Scale(n: nat): nat {
    if n < 10 then 10 else 10 * Scale(n / 10)
  }

  lemma TenTimes(acc: nat, scale: nat)
    ensures acc * (10 * scale) == 10 * (acc * scale)
  {
  }

  lemma {:induction false} AtoiDecimal(n: nat, rest: string, acc: nat)
    ensures AtoiFrom(Decimal(n) + rest, acc) == AtoiFrom(rest, acc * Scale(n) + n)
  {
    if n < 10 {
      assert (Decimal(n) + rest)[1..] == rest;
    } else {
      var last := [Digit(n % 10)];
      assert Decimal(n) + rest == Decimal(n / 10) + (last + rest);
      AtoiDecimal(n / 10, last + rest, acc);
      assert (last + rest)[1..] == rest;
      TenTimes(acc, Scale(n / 10));
    }
  }

  // atoi undoes "%d", so that distinct descriptors have distinct keys.
  lemma AtoiUndoesDecimal(n: nat)
    ensures AtoiFrom(Decimal(n), 0) == n
  {
    AtoiDecimal(n, [], 0);
    assert Decimal(n) + [] == Decimal(n);
  }

  lemma DecimalIsInjective(m: nat, n: nat)
    requires Decimal(m) == Decimal(n)
    ensures m == n
  {
    AtoiUndoesDecimal(m);
    AtoiUndoesDecimal(n);
  }

  function Pow10(k: nat): nat {
    if k == 0 then 1 else 10 * Pow10(k - 1)
  }

  lemma {:induction false} DecimalLength(n: nat, k: nat)
    requires k > 0 && n < Pow10(k)
    ensures |Decimal(n)| <= k
  {
    if n >= 10 {
      DecimalLength(n / 10, k - 1);
    }
  }

  // A 32-bit descriptor's key fits into an entry of the table.
  lemma DescriptorKeyFits(fd: nat)
    requires fd < 0x8000_0000
    ensures |Decimal(fd)| <= 10
  {
    assert Pow10(5) == 100_000;
    assert Pow10(10) == 100_000 * Pow10(5);
    DecimalLength(fd, 10);
  }

  // ----- Registrations, by key -----

  type FdMap = map<string, EngineFd>

  ghost predicate KeysMatch(m: FdMap) {
    forall k :: k in m ==> k == Decimal(m[k].fd)
  }

  // The keys a pass of __fd_isset_foreach pops.
  ghost function Expired(m: FdMap, ready: set<nat>): set<string> {
    set k | k in m && m[k].fd in ready && m[k].temporary
  }

  datatype FdOp = Add(entry: EngineFd) | Del(fd: nat) | Readable(ready: set<nat>)

  ghost function FdStep(m: FdMap, op: FdOp): FdMap {
    match op
    case Add(e) => m[Decimal(e.fd) := e]
    case Del(fd) => m - {Decimal(fd)}
    case Readable(ready) => m - Expired(m, ready)
  }

  // Whether the pass `op` calls back `e`.
  predicate Calls(m: FdMap, op: FdOp, e: EngineFd) {
    op.Readable? && e.fd in op.ready && Decimal(e.fd) in m && m[Decimal(e.fd)] == e
  }

  ghost function CallCount(m: FdMap, ops: seq<FdOp>, e: EngineFd): nat
    decreases |ops|
  {
    if ops == [] then 0
    else (if Calls(m, ops[0], e) then 1 else 0) + CallCount(FdStep(m, ops[0]), ops[1..], e)
  }

  function AddCount(ops: seq<FdOp>, e: EngineFd): nat {
    if ops == [] then 0 else (if ops[0] == Add(e) then 1 else 0) + AddCount(ops[1..], e)
  }

  predicate Registered(m: FdMap, e: EngineFd) {
    Decimal(e.fd) in m && m[Decimal(e.fd)] == e
  }

  // A descriptor added once is called back at most once per time it was added,
  // whatever is added, deleted or readable in between.
  lemma {:induction false} OnceMeansOnce(m: FdMap, ops: seq<FdOp>, e: EngineFd)
    requires e.temporary
    ensures CallCount(m, ops, e) <= AddCount(ops, e) + (if Registered(m, e) then 1 else 0)
    decreases |ops|
  {
    if ops != [] {
      var m' := FdStep(m, ops[0]);
      OnceMeansOnce(m', ops[1..], e);
      if ops[0].Add? && Registered(m', e) && !Registered(m, e) {
        DecimalIsInjective(e.fd, ops[0].entry.fd);
      }
    }
  }
}
