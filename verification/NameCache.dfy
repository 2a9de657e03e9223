/** The resolver's name cache: src/data/map/ns_hash.c on the generic chained hash of
    src/data/map/hash.c. */
module NameCache {
  import opened Prelude
  import opened Chains

  /** `addr_storage`: the family and the address bytes as a number. */
  datatype Addr = Addr(v6: bool, bits: nat)

  /** A host name: the text form `inet_ntop` gives to an address, or what a lookup answered. */
  datatype Name = Numeric(addr: Addr) | Answer(text: string)

  type Buckets = seq<Chain<Addr, Name>>

  const TABLE_SIZE := 256

  function ByteSum(bits: nat, len: nat): nat {
    if len == 0 then 0 else bits % 256 + ByteSum(bits / 256, len - 1)
  }

  /** `ns_hash_hash`: the byte sum modulo 255, which leaves the last bucket unused. */
  function Hash(a: Addr): (b: nat)
    ensures b < TABLE_SIZE - 1
  {
    ByteSum(a.bits, if a.v6 then 16 else 4) % 0xFF
  }

  function Empty(): Buckets {
    seq(TABLE_SIZE, _ => [])
  }

  function Find(t: Buckets, a: Addr): Option<Name>
    requires |t| == TABLE_SIZE
  {
    FindIn(t[Hash(a)], a)
  }

  function Insert(t: Buckets, a: Addr, n: Name): Buckets
    requires |t| == TABLE_SIZE
  {
    t[Hash(a) := [Entry(a, n)] + t[Hash(a)]]
  }

  function Delete(t: Buckets, a: Addr): Buckets
    requires |t| == TABLE_SIZE
  {
    t[Hash(a) := DeleteIn(t[Hash(a)], a)]
  }

  // ---- Abstraction ----

  /** Number of entries in all chains. */
  function Count(t: Buckets): nat {
    if t == [] then 0 else |t[0]| + Count(t[1..])
  }

  /** Every entry hangs in the bucket of its address and no address has two entries. */
  ghost predicate WellFormed(t: Buckets) {
    && |t| == TABLE_SIZE
    && forall b | 0 <= b < TABLE_SIZE :: UniqueKeys(t[b]) && forall a | a in ChainKeys(t[b]) :: Hash(a) == b
  }

  predicate Cached(t: Buckets, a: Addr)
    requires |t| == TABLE_SIZE
  {
    Find(t, a).Some?
  }

  lemma {:induction false} CountUpdate(t: Buckets, b: nat, c: Chain<Addr, Name>)
    requires b < |t|
    ensures Count(t[b := c]) == Count(t) - |t[b]| + |c|
  {
    if b == 0 {
      assert t[0 := c][1..] == t[1..];
    } else {
      CountUpdate(t[1..], b - 1, c);
      assert t[b := c][1..] == t[1..][b - 1 := c];
    }
  }

  lemma {:induction false} CountEmpty(n: nat)
    ensures Count(seq(n, _ => [])) == 0
  {
    if n == 0 {
    } else {
      CountEmpty(n - 1);
      var t: Buckets := seq(n, _ => []);
      assert t[1..] == seq(n - 1, _ => []);
    }
  }

  lemma EmptyIsWellFormed()
    ensures WellFormed(Empty()) && Count(Empty()) == 0 && forall a :: !Cached(Empty(), a)
  {
    CountEmpty(TABLE_SIZE);
  }

  /** Inserting an absent address: one entry more, all other addresses as before. */
  lemma InsertNew(t: Buckets, a: Addr, n: Name)
    requires WellFormed(t) && !Cached(t, a)
    ensures WellFormed(Insert(t, a, n)) && Count(Insert(t, a, n)) == Count(t) + 1
    ensures forall x :: Find(Insert(t, a, n), x) == if x == a then Some(n) else Find(t, x)
  {
    var c := t[Hash(a)];
    var c' := [Entry(a, n)] + c;
    assert c'[1..] == c;
    FindMeansMember(c, a);
    CountUpdate(t, Hash(a), c');
  }

  /** The worker's replacement, delete then insert: same entries, new name. */
  lemma Replace(t: Buckets, a: Addr, n: Name)
    requires WellFormed(t) && Cached(t, a)
    ensures var r := Insert(Delete(t, a), a, n);
            && WellFormed(r) && Count(r) == Count(t)
            && forall x :: Find(r, x) == if x == a then Some(n) else Find(t, x)
  {
    var c := t[Hash(a)];
    FindMeansMember(c, a);
    DeleteMeansRemove(c, a);
    CountUpdate(t, Hash(a), DeleteIn(c, a));
    FindMeansMember(DeleteIn(c, a), a);
    InsertNew(Delete(t, a), a, n);
  }
}
