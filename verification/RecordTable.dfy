/** A hash table whose nodes point to records in a memory of their own: what it means as a map from keys
    to records, and how the operations on nodes and records change that map.  Both the flow table of
    src/entry/iftop.c and the line table of src/ui/ui.c are used in this way. */
module RecordTable {
  import opened Prelude
  import opened PoolTable
  import opened AddrHash
  import opened HistPool

  /** `nodeOf` is the inverse of the key column of `items`; in particular keys are unique. */
  ghost predicate Indexed<K>(mem: Memory<K>, items: seq<int>, nodeOf: map<K, int>) {
    && (forall x | x in items :: 0 <= x < |mem| && mem[x].key in nodeOf && nodeOf[mem[x].key] == x)
    && (forall k | k in nodeOf :: 0 <= nodeOf[k] < |mem| && nodeOf[k] in items && mem[nodeOf[k]].key == k)
  }

  /** Every node of `items` has a record of its own, and no other record is in use. */
  ghost predicate Owned<K, R>(mem: Memory<K>, items: seq<int>, recs: seq<R>, free: seq<int>) {
    && (forall x | x in items :: 0 <= x < |mem| && 0 <= mem[x].record < |recs| && mem[x].record !in free)
    && (forall x, y | x in items && y in items && mem[x].record == mem[y].record :: x == y)
    && |recs| - |free| == |items|
  }

  ghost predicate Matched<K, R>(mem: Memory<K>, items: seq<int>, recs: seq<R>, free: seq<int>, nodeOf: map<K, int>) {
    Indexed(mem, items, nodeOf) && Owned(mem, items, recs, free)
  }

  /** The map that the table stands for. */
  ghost function TableMap<K, R>(mem: Memory<K>, items: seq<int>, recs: seq<R>, free: seq<int>, nodeOf: map<K,
                                int>): map<K, R>
    requires Matched(mem, items, recs, free, nodeOf)
  {
    map k | k in nodeOf :: recs[mem[nodeOf[k]].record]
  }

  lemma EmptyMatches<K, R>(mem: Memory<K>)
    ensures Matched<K, R>(mem, [], [], [], map[]) && TableMap<K, R>(mem, [], [], [], map[]) == map[]
  {
  }

  /** The nodes of `items` are where they were, with the same keys and records. */
  ghost predicate Untouched<K>(mem: Memory<K>, mem': Memory<K>, items: seq<int>) {
    && |mem| <= |mem'|
    && forall x | x in items :: 0 <= x < |mem| && mem'[x].key == mem[x].key && mem'[x].record == mem[x].record
  }

  /** A table does not notice what happens to other nodes. */
  lemma MatchedFrame<K, R>(mem: Memory<K>, mem': Memory<K>, items: seq<int>, recs: seq<R>, free: seq<int>,
                           nodeOf: map<K, int>)
    requires Matched(mem, items, recs, free, nodeOf) && Untouched(mem, mem', items)
    ensures Matched(mem', items, recs, free, nodeOf)
    ensures TableMap(mem', items, recs, free, nodeOf) == TableMap(mem, items, recs, free, nodeOf)
  {
  }

  lemma AddedElements(s: seq<int>, x: int, s': seq<int>)
    requires Added(s, x, s')
    ensures |s'| == |s| + 1 && x !in s && forall y :: y in s' <==> y == x || y in s
  {
    var i :| 0 <= i <= |s| && s' == s[..i] + [x] + s[i..];
    assert s == s[..i] + s[i..];
  }

  lemma RemovedElements(s: seq<int>, x: int, s': seq<int>)
    requires NoDup(s) && RemovedFrom(s, x, s')
    ensures |s'| == |s| - 1 && forall y :: y in s' <==> y != x && y in s
  {
    var i :| 0 <= i < |s| && s[i] == x && s' == RemoveAt(s, i);
    RemoveAtElements(s, i);
  }

  lemma IndexedAfterAdd<K>(mem: Memory<K>, items: seq<int>, nodeOf: map<K, int>, mem': Memory<K>, items': seq<int>, x: int)
    requires Indexed(mem, items, nodeOf) && Untouched(mem, mem', items) && Added(items, x, items')
    requires 0 <= x < |mem'| && mem'[x].key !in nodeOf
    ensures Indexed(mem', items', nodeOf[mem'[x].key := x])
  {
    AddedElements(items, x, items');
  }

  lemma OwnedAfterAdd<K, R>(mem: Memory<K>, items: seq<int>, recs: seq<R>, free: seq<int>,
                            mem': Memory<K>, items': seq<int>, recs': seq<R>, free': seq<int>, x: int)
    requires Owned(mem, items, recs, free) && Untouched(mem, mem', items) && Added(items, x, items')
    requires 0 <= x < |mem'|
    requires var h := mem'[x].record; 0 <= h < |recs'| && h !in free' && (h < |recs| ==> h in free)
    requires KeepsInUse(recs, free, recs', free', NULL) && |recs'| - |free'| == |recs| - |free| + 1
    ensures Owned(mem', items', recs', free')
  {
    AddedElements(items, x, items');
  }

  /** A new node with a record that was not in use. */
  lemma MatchedAfterAdd<K, R>(mem: Memory<K>, items: seq<int>, recs: seq<R>, free: seq<int>, nodeOf: map<K, int>,
                              mem': Memory<K>, items': seq<int>, recs': seq<R>, free': seq<int>, x: int)
    requires Matched(mem, items, recs, free, nodeOf) && Untouched(mem, mem', items) && Added(items, x, items')
    requires 0 <= x < |mem'| && mem'[x].key !in nodeOf
    requires var h := mem'[x].record; 0 <= h < |recs'| && h !in free' && (h < |recs| ==> h in free)
    requires KeepsInUse(recs, free, recs', free', NULL) && |recs'| - |free'| == |recs| - |free| + 1
    ensures var nodeOf' := nodeOf[mem'[x].key := x];
            && Matched(mem', items', recs', free', nodeOf')
            && TableMap(mem', items', recs', free', nodeOf') ==
               TableMap(mem, items, recs, free, nodeOf)[mem'[x].key := recs'[mem'[x].record]]
  {
    IndexedAfterAdd(mem, items, nodeOf, mem', items', x);
    OwnedAfterAdd(mem, items, recs, free, mem', items', recs', free', x);
  }

  lemma OwnedAfterDrop<K(!new), R>(mem: Memory<K>, items: seq<int>, recs: seq<R>, free: seq<int>,
                                   mem': Memory<K>, items': seq<int>, recs': seq<R>, free': seq<int>, x: int)
    requires Owned(mem, items, recs, free) && x in items && NoDup(items)
    requires SameContents(mem, mem') && RemovedFrom(items, x, items')
    requires KeepsInUse(recs, free, recs', free', mem[x].record) && |recs'| - |free'| == |recs| - |free| - 1
    ensures Owned(mem', items', recs', free')
  {
    RemovedElements(items, x, items');
  }

  lemma IndexedAfterDrop<K(!new)>(mem: Memory<K>, items: seq<int>, nodeOf: map<K, int>, mem': Memory<K>,
                                  items': seq<int>, x: int)
    requires Indexed(mem, items, nodeOf) && x in items && NoDup(items)
    requires SameContents(mem, mem') && RemovedFrom(items, x, items')
    ensures Indexed(mem', items', nodeOf - {mem[x].key})
  {
    RemovedElements(items, x, items');
  }

  /** A node is deleted and its record given back. */
  lemma MatchedAfterDrop<K(!new), R>(mem: Memory<K>, items: seq<int>, recs: seq<R>, free: seq<int>, nodeOf: map<K, int>,
                                     mem': Memory<K>, items': seq<int>, recs': seq<R>, free': seq<int>, x: int)
    requires Matched(mem, items, recs, free, nodeOf) && x in items && NoDup(items)
    requires SameContents(mem, mem') && RemovedFrom(items, x, items')
    requires KeepsInUse(recs, free, recs', free', mem[x].record) && |recs'| - |free'| == |recs| - |free| - 1
    ensures var nodeOf' := nodeOf - {mem[x].key};
            && Matched(mem', items', recs', free', nodeOf')
            && TableMap(mem', items', recs', free', nodeOf') == TableMap(mem, items, recs, free, nodeOf) - {mem[x].key}
  {
    OwnedAfterDrop(mem, items, recs, free, mem', items', recs', free', x);
    IndexedAfterDrop(mem, items, nodeOf, mem', items', x);
  }

  /** The record of a node is overwritten. */
  lemma MatchedAfterSet<K, R>(mem: Memory<K>, items: seq<int>, recs: seq<R>, free: seq<int>, nodeOf: map<K, int>,
                              x: int, v: R)
    requires Matched(mem, items, recs, free, nodeOf) && x in items
    ensures var recs' := recs[mem[x].record := v];
            && Matched(mem, items, recs', free, nodeOf)
            && TableMap(mem, items, recs', free, nodeOf) == TableMap(mem, items, recs, free, nodeOf)[mem[x].key := v]
  {
  }

  // ---- The same, sealed ----

  /** The table stands for the map `m`. */
  ghost predicate Holds<K, R>(mem: Memory<K>, items: seq<int>, recs: seq<R>, free: seq<int>, nodeOf: map<K, int>,
                              m: map<K, R>) {
    forall g | Opened(items, g) ::
      Matched(mem, items, recs, free, nodeOf) && m == TableMap(mem, items, recs, free, nodeOf)
  }

  lemma HoldsNothing<K, R>(mem: Memory<K>)
    ensures Holds<K, R>(mem, [], [], [], map[], map[])
  {
    EmptyMatches<K, R>(mem);
  }

  lemma HoldsFacts<K, R>(mem: Memory<K>, items: seq<int>, recs: seq<R>, free: seq<int>, nodeOf: map<K, int>, m: map<K, R>)
    requires Holds(mem, items, recs, free, nodeOf, m)
    ensures Indexed(mem, items, nodeOf) && m.Keys == nodeOf.Keys
  {
    assert Opened(items, 0);
  }

  lemma HoldsRecord<K, R>(mem: Memory<K>, items: seq<int>, recs: seq<R>, free: seq<int>, nodeOf: map<K, int>,
                          m: map<K, R>, x: int)
    requires Holds(mem, items, recs, free, nodeOf, m) && x in items
    ensures 0 <= x < |mem| && mem[x].key in m
    ensures var h := mem[x].record; 0 <= h < |recs| && h !in free && recs[h] == m[mem[x].key]
  {
    assert Opened(items, 0);
  }

  lemma HoldsFrame<K, R>(mem: Memory<K>, mem': Memory<K>, items: seq<int>, recs: seq<R>, free: seq<int>,
                         nodeOf: map<K, int>, m: map<K, R>)
    requires Holds(mem, items, recs, free, nodeOf, m) && Untouched(mem, mem', items)
    ensures Holds(mem', items, recs, free, nodeOf, m)
  {
    assert Opened(items, 0);
    MatchedFrame(mem, mem', items, recs, free, nodeOf);
  }

  lemma HoldsRelinked<K(!new), R>(mem: Memory<K>, mem': Memory<K>, items: seq<int>, recs: seq<R>, free: seq<int>,
                                  nodeOf: map<K, int>, m: map<K, R>)
    requires Holds(mem, items, recs, free, nodeOf, m) && SameContents(mem, mem')
    ensures Holds(mem', items, recs, free, nodeOf, m)
  {
    assert Opened(items, 0);
    MatchedFrame(mem, mem', items, recs, free, nodeOf);
  }

  /** The record `h` is one that was not in use before. */
  ghost predicate NewRecord<R>(recs: seq<R>, free: seq<int>, recs': seq<R>, free': seq<int>, h: int) {
    && 0 <= h < |recs'| && h !in free' && (h < |recs| ==> h in free)
    && KeepsInUse(recs, free, recs', free', NULL) && |recs'| - |free'| == |recs| - |free| + 1
  }

  lemma HoldsAfterAdd<K, R>(mem: Memory<K>, items: seq<int>, recs: seq<R>, free: seq<int>, nodeOf: map<K, int>, m: map<K, R>,
                            mem': Memory<K>, items': seq<int>, recs': seq<R>, free': seq<int>, x: int)
    requires Holds(mem, items, recs, free, nodeOf, m) && Untouched(mem, mem', items) && Added(items, x, items')
    requires 0 <= x < |mem'| && mem'[x].key !in m && NewRecord(recs, free, recs', free', mem'[x].record)
    ensures x in items'
    ensures Holds(mem', items', recs', free', nodeOf[mem'[x].key := x], m[mem'[x].key := recs'[mem'[x].record]])
  {
    assert Opened(items, 0);
    AddedElements(items, x, items');
    MatchedAfterAdd(mem, items, recs, free, nodeOf, mem', items', recs', free', x);
  }

  lemma HoldsAfterDrop<K(!new), R>(mem: Memory<K>, items: seq<int>, recs: seq<R>, free: seq<int>, nodeOf: map<K,
                                   int>, m: map<K, R>,
                                   mem': Memory<K>, items': seq<int>, recs': seq<R>, free': seq<int>, x: int)
    requires Holds(mem, items, recs, free, nodeOf, m) && x in items && NoDup(items) && 0 <= x < |mem|
    requires SameContents(mem, mem') && RemovedFrom(items, x, items')
    requires KeepsInUse(recs, free, recs', free', mem[x].record) && |recs'| - |free'| == |recs| - |free| - 1
    ensures Holds(mem', items', recs', free', nodeOf - {mem[x].key}, m - {mem[x].key})
  {
    assert Opened(items, 0);
    MatchedAfterDrop(mem, items, recs, free, nodeOf, mem', items', recs', free', x);
  }

  lemma HoldsAfterSet<K, R>(mem: Memory<K>, items: seq<int>, recs: seq<R>, free: seq<int>, nodeOf: map<K, int>,
                            m: map<K, R>, x: int, v: R)
    requires Holds(mem, items, recs, free, nodeOf, m) && x in items && 0 <= x < |mem| && 0 <= mem[x].record < |recs|
    ensures Holds(mem, items, recs[mem[x].record := v], free, nodeOf, m[mem[x].key := v])
  {
    assert Opened(items, 0);
    MatchedAfterSet(mem, items, recs, free, nodeOf, x, v);
  }

  // ---- Iteration ----

  /** The keys in the order in which `hash_next_item` meets their nodes. */
  ghost predicate InOrder<K>(order: seq<K>, items: seq<int>, nodeOf: map<K, int>) {
    && |order| == |items|
    && (forall i | 0 <= i < |order| :: order[i] in nodeOf && nodeOf[order[i]] == items[i])
  }

  /** Iterating a table meets every key exactly once. */
  lemma IterationVisitsAll<K>(mem: Memory<K>, items: seq<int>, nodeOf: map<K, int>, order: seq<K>)
    requires Indexed(mem, items, nodeOf) && NoDup(items) && InOrder(order, items, nodeOf)
    ensures forall i | 0 <= i < |order| :: order[i] !in order[..i]
    ensures forall k :: k in order <==> k in nodeOf
  {
    NoDupIsDistinct(items);
    forall i, j | 0 <= j < i < |order|
      ensures order[j] != order[i]
    {
      assert nodeOf[order[j]] == items[j] != items[i];
    }
    forall k | k in nodeOf
      ensures k in order
    {
      var i :| 0 <= i < |items| && items[i] == nodeOf[k];
      assert mem[nodeOf[order[i]]].key == order[i];
    }
  }

  /** The next node met is the next one in order, as long as nothing else has been deleted. */
  lemma NextInOrder(items: seq<int>, kept: seq<int>, order: seq<int>, i: nat, next: int)
    requires i < |order| && items == kept + order[i..] && NoDup(items)
    requires Follows(items, order[i], next)
    ensures next == At(order, i + 1)
    ensures forall items' | RemovedFrom(items, order[i], items') :: items' == kept + order[i + 1..]
  {
    NoDupIsDistinct(items);
    assert items[|kept|] == order[i];
    forall items' | RemovedFrom(items, order[i], items')
      ensures items' == kept + order[i + 1..]
    {
      assert RemoveAt(items, |kept|) == kept + order[i + 1..];
    }
  }

  lemma EndOfItems(items: seq<int>, i: nat)
    requires i <= |items| && At(items, i) == NULL && forall x | x in items :: 0 <= x
    ensures items[..i] == items
  {
    assert forall j | 0 <= j < |items| :: items[j] in items;
  }

  /** A tour of the table that deletes nothing, sealed: `order` are its keys. */
  ghost predicate Tour<K>(order: seq<K>, items: seq<int>, nodeOf: map<K, int>) {
    |order| == |items| && forall g | Opened(order, g) ::
      NoDup(items) && InOrder(order, items, nodeOf) && forall x | x in items :: 0 <= x
  }

  lemma StartTour<K>(mem: Memory<K>, items: seq<int>, nodeOf: map<K, int>) returns (order: seq<K>)
    requires Indexed(mem, items, nodeOf) && NoDup(items)
    ensures Tour(order, items, nodeOf)
    ensures forall i | 0 <= i < |order| :: order[i] !in order[..i]
    ensures forall k :: k in order <==> k in nodeOf
  {
    assert forall i | 0 <= i < |items| :: items[i] in items;
    order := seq(|items|, i requires 0 <= i < |items| => mem[items[i]].key);
    IterationVisitsAll(mem, items, nodeOf, order);
  }

  lemma TourKey<K>(mem: Memory<K>, items: seq<int>, nodeOf: map<K, int>, order: seq<K>, i: nat)
    requires Indexed(mem, items, nodeOf) && Tour(order, items, nodeOf) && i < |items|
    ensures items[i] in items && 0 <= items[i] < |mem| && mem[items[i]].key == order[i]
  {
    assert Opened(order, 0);
  }

  lemma TourNext<K>(order: seq<K>, items: seq<int>, nodeOf: map<K, int>, i: nat, next: int)
    requires Tour(order, items, nodeOf) && i < |items| && Follows(items, items[i], next)
    ensures next == At(items, i + 1) && order[..i + 1] == order[..i] + [order[i]]
  {
    assert Opened(order, 0);
    NextInOrder(items, items[..i], items, i, next);
  }

  lemma TourEnd<K>(order: seq<K>, items: seq<int>, nodeOf: map<K, int>, i: nat)
    requires Tour(order, items, nodeOf) && i <= |items| && At(items, i) == NULL
    ensures order[..i] == order
  {
    assert Opened(order, 0);
    EndOfItems(items, i);
    assert |items[..i]| == |items|;
  }
}
