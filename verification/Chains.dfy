/** One bucket of the chained hash table of src/data/map/hash.c: its entries, front first.  Nothing in
    the structure itself forbids two entries with the same key. */
module Chains {
  import opened Prelude

  datatype Entry<K, V> = Entry(key: K, value: V)

  type Chain<K, V> = seq<Entry<K, V>>

  /** `hash_find` within a chain: the first match. */
  function FindIn<K(==), V>(c: Chain<K, V>, a: K): Option<V> {
    if c == [] then None else if c[0].key == a then Some(c[0].value) else FindIn(c[1..], a)
  }

  /** `hash_delete` within a chain: drops the first match. */
  function DeleteIn<K(==), V>(c: Chain<K, V>, a: K): Chain<K, V> {
    if c == [] then [] else if c[0].key == a then c[1..] else [c[0]] + DeleteIn(c[1..], a)
  }

  /** The keys of a chain. */
  function ChainKeys<K, V>(c: Chain<K, V>): set<K> {
    if c == [] then {} else {c[0].key} + ChainKeys(c[1..])
  }

  /** No key twice. */
  predicate UniqueKeys<K(==), V>(c: Chain<K, V>) {
    c == [] || (c[0].key !in ChainKeys(c[1..]) && UniqueKeys(c[1..]))
  }

  lemma {:induction false} FindMeansMember<K, V>(c: Chain<K, V>, a: K)
    ensures FindIn(c, a).Some? <==> a in ChainKeys(c)
  {
    if c == [] {
    } else {
      FindMeansMember(c[1..], a);
    }
  }

  lemma {:induction false} DeleteMeansRemove<K, V>(c: Chain<K, V>, a: K)
    requires UniqueKeys(c)
    ensures UniqueKeys(DeleteIn(c, a)) && ChainKeys(DeleteIn(c, a)) == ChainKeys(c) - {a}
    ensures |DeleteIn(c, a)| == |c| - if a in ChainKeys(c) then 1 else 0
    ensures forall x | x != a :: FindIn(DeleteIn(c, a), x) == FindIn(c, x)
  {
    if c == [] {
    } else {
      DeleteMeansRemove(c[1..], a);
      var d := DeleteIn(c, a);
      if c[0].key != a {
        assert d[1..] == DeleteIn(c[1..], a);
      }
    }
  }

  /** What unlinking the node where the walk stops leaves. */
  lemma {:induction false} DeleteAt<K, V>(c: Chain<K, V>, a: K, i: nat)
    requires i <= |c| && (forall j | 0 <= j < i :: c[j].key != a) && (i < |c| ==> c[i].key == a)
    ensures DeleteIn(c, a) == if i < |c| then c[..i] + c[i + 1..] else c
  {
    if i == 0 {
    } else {
      DeleteAt(c[1..], a, i - 1);
      if i < |c| {
        assert [c[0]] + (c[1..][..i - 1] + c[1..][i..]) == c[..i] + c[i + 1..];
      }
    }
  }

  /** The walk of `hash_find`. */
  method FindWalk<K(==), V>(c: Chain<K, V>, a: K) returns (r: Option<V>)
    ensures r == FindIn(c, a)
  {
    var i := 0;
    while i < |c| && c[i].key != a
      invariant 0 <= i <= |c| && FindIn(c[i..], a) == FindIn(c, a)
    {
      i := i + 1;
    }
    r := if i < |c| then Some(c[i].value) else None;
  }

  /** The walk of `hash_delete`: unlinks the first match. */
  method DeleteWalk<K(==), V>(c: Chain<K, V>, a: K) returns (r: Chain<K, V>)
    ensures r == DeleteIn(c, a)
  {
    var i := 0;
    while i < |c| && c[i].key != a
      invariant 0 <= i <= |c| && forall j | 0 <= j < i :: c[j].key != a
    {
      i := i + 1;
    }
    DeleteAt(c, a, i);
    r := if i < |c| then c[..i] + c[i + 1..] else c;
  }
}
