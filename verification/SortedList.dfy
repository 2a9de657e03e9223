/** The linked display list of src/data/sorted_list.c, for any comparator. */
module SortedList {
  import opened Prelude
  import opened PoolTable

  /** `compare(x, y)`: `x` does not belong before `y`. */
  type Comparator<!T> = (T, T) -> bool

  ghost predicate TotalPreorder<T(!new)>(compare: Comparator<T>) {
    && (forall x, y :: compare(x, y) || compare(y, x))
    && (forall x, y, z :: compare(x, y) && compare(y, z) ==> compare(x, z))
  }

  predicate Sorted<T>(compare: Comparator<T>, s: seq<T>) {
    forall i, j | 0 <= i < j < |s| :: compare(s[j], s[i])
  }

  /** `s` holds the elements of `xs` in order. */
  predicate SortOf<T(==)>(compare: Comparator<T>, xs: seq<T>, s: seq<T>) {
    Sorted(compare, s) && multiset(s) == multiset(xs)
  }

  /** The position at which `sorted_list_insert` stops walking. */
  function Position<T>(compare: Comparator<T>, s: seq<T>, x: T): (k: nat)
    ensures k <= |s| && (forall i | 0 <= i < k :: compare(x, s[i])) && (k < |s| ==> !compare(x, s[k]))
  {
    if s == [] || !compare(x, s[0]) then 0 else 1 + Position(compare, s[1..], x)
  }

  function Inserted<T>(compare: Comparator<T>, s: seq<T>, x: T): seq<T> {
    var k := Position(compare, s, x);
    s[..k] + [x] + s[k..]
  }

  function InsertAll<T>(compare: Comparator<T>, xs: seq<T>): seq<T> {
    if xs == [] then [] else Inserted(compare, InsertAll(compare, xs[..|xs| - 1]), xs[|xs| - 1])
  }

  // ---- What insertion computes ----

  lemma InsertedIsSorted<T(!new)>(compare: Comparator<T>, s: seq<T>, x: T)
    requires TotalPreorder(compare) && Sorted(compare, s)
    ensures Sorted(compare, Inserted(compare, s, x))
  {
    var k := Position(compare, s, x);
    var r := Inserted(compare, s, x);
    forall i, j | 0 <= i < j < |r|
      ensures compare(r[j], r[i])
    {
      assert compare(x, x);
      if i == k {
        assert r[j] == s[j - 1] && compare(s[k], x);
        assert j - 1 == k || compare(s[j - 1], s[k]);
      }
    }
  }

  /** The elements that tie with `e`, in order. */
  function Ties<T>(compare: Comparator<T>, s: seq<T>, e: T): seq<T> {
    if s == [] then []
    else Ties(compare, s[..|s| - 1], e) +
         if compare(s[|s| - 1], e) && compare(e, s[|s| - 1]) then [s[|s| - 1]] else []
  }

  lemma {:induction false} TiesConcat<T>(compare: Comparator<T>, a: seq<T>, b: seq<T>, e: T)
    ensures Ties(compare, a + b, e) == Ties(compare, a, e) + Ties(compare, b, e)
    decreases |b|
  {
    if b == [] {
      assert a + b == a;
    } else {
      TiesConcat(compare, a, b[..|b| - 1], e);
      assert (a + b)[..|a + b| - 1] == a + b[..|b| - 1];
    }
  }

  lemma {:induction false} NoTies<T>(compare: Comparator<T>, s: seq<T>, e: T)
    requires forall i | 0 <= i < |s| :: !(compare(s[i], e) && compare(e, s[i]))
    ensures Ties(compare, s, e) == []
  {
    if s == [] {
    } else {
      NoTies(compare, s[..|s| - 1], e);
    }
  }

  lemma TiesOfOne<T>(compare: Comparator<T>, x: T, e: T)
    requires !(compare(x, e) && compare(e, x))
    ensures Ties(compare, [x], e) == []
  {
    NoTies(compare, [x], e);
  }

  /** Splicing `x` between `a` and `b` puts it last among its ties, if nothing in `b` ties with it. */
  lemma SplicedTies<T>(compare: Comparator<T>, a: seq<T>, x: T, b: seq<T>, e: T)
    requires compare(x, e) && compare(e, x) ==> Ties(compare, b, e) == []
    ensures Ties(compare, a + [x] + b, e) == Ties(compare, a + b, e) + Ties(compare, [x], e)
  {
    TiesConcat(compare, a + [x], b, e);
    TiesConcat(compare, a, [x], e);
    TiesConcat(compare, a, b, e);
    if !(compare(x, e) && compare(e, x)) {
      TiesOfOne(compare, x, e);
    }
  }

  lemma Transitive<T(!new)>(compare: Comparator<T>, x: T, y: T, z: T)
    requires TotalPreorder(compare)
    ensures compare(x, y) && compare(y, z) ==> compare(x, z)
  {
  }

  lemma BehindDoesNotTie<T(!new)>(compare: Comparator<T>, s: seq<T>, x: T, e: T, i: nat)
    requires TotalPreorder(compare) && Sorted(compare, s)
    requires Position(compare, s, x) <= i < |s| && compare(x, e)
    ensures !compare(e, s[i])
  {
    var k := Position(compare, s, x);
    assert i == k || compare(s[i], s[k]);
    Transitive(compare, x, e, s[i]);
    Transitive(compare, x, s[i], s[k]);
  }

  lemma NoTiesBehind<T(!new)>(compare: Comparator<T>, s: seq<T>, x: T, e: T)
    requires TotalPreorder(compare) && Sorted(compare, s) && compare(x, e)
    ensures Ties(compare, s[Position(compare, s, x)..], e) == []
  {
    var k := Position(compare, s, x);
    forall i | 0 <= i < |s[k..]|
      ensures !(compare(s[k..][i], e) && compare(e, s[k..][i]))
    {
      BehindDoesNotTie(compare, s, x, e, k + i);
    }
    NoTies(compare, s[k..], e);
  }

  /** A new element goes behind everything it ties with. */
  lemma InsertedTies<T(!new)>(compare: Comparator<T>, s: seq<T>, x: T, e: T)
    requires TotalPreorder(compare) && Sorted(compare, s)
    ensures Ties(compare, Inserted(compare, s, x), e) == Ties(compare, s, e) + Ties(compare, [x], e)
  {
    var k := Position(compare, s, x);
    if compare(x, e) {
      NoTiesBehind(compare, s, x, e);
    }
    SplicedTies(compare, s[..k], x, s[k..], e);
    assert s == s[..k] + s[k..];
  }

  lemma InsertedElements<T>(compare: Comparator<T>, s: seq<T>, x: T)
    ensures multiset(Inserted(compare, s, x)) == multiset(s) + multiset{x}
  {
    var k := Position(compare, s, x);
    assert s == s[..k] + s[k..];
  }

  lemma InsertOneStably<T(!new)>(compare: Comparator<T>, xs: seq<T>, s: seq<T>, x: T, e: T)
    requires TotalPreorder(compare) && SortOf(compare, xs, s) && Ties(compare, s, e) == Ties(compare, xs, e)
    ensures SortOf(compare, xs + [x], Inserted(compare, s, x))
    ensures Ties(compare, Inserted(compare, s, x), e) == Ties(compare, xs + [x], e)
  {
    InsertedIsSorted(compare, s, x);
    InsertedElements(compare, s, x);
    InsertedTies(compare, s, x, e);
    TiesConcat(compare, xs, [x], e);
  }

  /** Any sequence of insertions into an empty list gives a sorted permutation in which elements that tie
      keep the order in which they were inserted. */
  lemma {:induction false} InsertAllSortsStably<T(!new)>(compare: Comparator<T>, xs: seq<T>, e: T)
    requires TotalPreorder(compare)
    ensures var s := InsertAll(compare, xs);
            && SortOf(compare, xs, s)
            && Ties(compare, s, e) == Ties(compare, xs, e)
  {
    if xs == [] {
    } else {
      var front, x := xs[..|xs| - 1], xs[|xs| - 1];
      var s := InsertAll(compare, front);
      InsertAllSortsStably(compare, front, e);
      InsertOneStably(compare, front, s, x, e);
      assert xs == front + [x] && InsertAll(compare, xs) == Inserted(compare, s, x);
    }
  }

  // ---- Any two correct sorts agree up to ties ----

  ghost predicate TotalOrder<K(!new)>(leq: (K, K) -> bool) {
    && (forall x, y :: leq(x, y) || leq(y, x))
    && (forall x, y :: leq(x, y) && leq(y, x) ==> x == y)
  }

  function Mapped<T, K>(key: T -> K, s: seq<T>): seq<K> {
    if s == [] then [] else [key(s[0])] + Mapped(key, s[1..])
  }

  lemma {:induction false} MappedIndices<T, K>(key: T -> K, s: seq<T>)
    ensures |Mapped(key, s)| == |s| && forall i | 0 <= i < |s| :: Mapped(key, s)[i] == key(s[i])
  {
    if s == [] {
    } else {
      MappedIndices(key, s[1..]);
    }
  }

  lemma {:induction false} MappedConcat<T, K>(key: T -> K, a: seq<T>, b: seq<T>)
    ensures Mapped(key, a + b) == Mapped(key, a) + Mapped(key, b)
  {
    if a == [] {
      assert a + b == b;
    } else {
      MappedConcat(key, a[1..], b);
      var rest := a[1..] + b;
      assert (a + b)[0] == a[0] && (a + b)[1..] == rest;
      assert Mapped(key, a + b) == [key(a[0])] + Mapped(key, rest);
      assert [key(a[0])] + (Mapped(key, a[1..]) + Mapped(key, b)) == Mapped(key, a) + Mapped(key, b);
    }
  }

  lemma NoElements<T>(s: seq<T>)
    requires multiset(s) == multiset{}
    ensures s == []
  {
    assert |s| == |multiset(s)|;
  }

  lemma SplitOut<T>(s: seq<T>, x: T) returns (left: seq<T>, right: seq<T>)
    requires x in multiset(s)
    ensures s == left + [x] + right && multiset(left + right) == multiset(s) - multiset{x}
  {
    var i :| 0 <= i < |s| && s[i] == x;
    left, right := s[..i], s[i + 1..];
    assert s == left + [x] + right;
  }

  lemma MappedAround<T, K>(key: T -> K, left: seq<T>, x: T, right: seq<T>)
    ensures multiset(Mapped(key, left + [x] + right)) == multiset(Mapped(key, left + right)) + multiset{key(x)}
  {
    MappedConcat(key, left, right);
    MappedConcat(key, left + [x], right);
    MappedConcat(key, left, [x]);
    assert Mapped(key, [x]) == [key(x)];
  }

  lemma TailElements<K>(u: seq<K>)
    requires u != []
    ensures u == [u[0]] + u[1..] && u[0] in multiset(u) && multiset(u[1..]) == multiset(u) - multiset{u[0]}
  {
    assert u == [u[0]] + u[1..];
  }

  lemma MappedFirst<T, K>(key: T -> K, a: seq<T>)
    requires a != []
    ensures multiset(Mapped(key, a)) == multiset(Mapped(key, a[1..])) + multiset{key(a[0])}
  {
    assert Mapped(key, a) == [key(a[0])] + Mapped(key, a[1..]);
  }

  /** A permutation of the elements permutes their keys. */
  lemma {:induction false} MappedPermuted<T, K>(key: T -> K, a: seq<T>, b: seq<T>)
    requires multiset(a) == multiset(b)
    ensures multiset(Mapped(key, a)) == multiset(Mapped(key, b))
  {
    if a == [] {
      NoElements(b);
    } else {
      TailElements(a);
      var left, right := SplitOut(b, a[0]);
      MappedPermuted(key, a[1..], left + right);
      MappedAround(key, left, a[0], right);
      MappedFirst(key, a);
    }
  }

  lemma FirstIsLargest<K(!new)>(leq: (K, K) -> bool, u: seq<K>, x: K)
    requires TotalOrder(leq) && Sorted(leq, u) && x in multiset(u)
    ensures leq(x, u[0])
  {
    var i :| 0 <= i < |u| && u[i] == x;
    assert leq(x, x);
  }

  /** A sequence sorted by a total order is determined by its elements. */
  lemma {:induction false} SortedIsUnique<K(!new)>(leq: (K, K) -> bool, u: seq<K>, v: seq<K>)
    requires TotalOrder(leq) && Sorted(leq, u) && Sorted(leq, v) && multiset(u) == multiset(v)
    ensures u == v
  {
    if u == [] {
      NoElements(v);
    } else {
      TailElements(u);
      assert |multiset(u)| == |u| && |multiset(v)| == |v|;
      TailElements(v);
      FirstIsLargest(leq, v, u[0]);
      FirstIsLargest(leq, u, v[0]);
      SortedIsUnique(leq, u[1..], v[1..]);
    }
  }

  lemma KeysAreSorted<T, K(!new)>(compare: Comparator<T>, key: T -> K, leq: (K, K) -> bool, s: seq<T>)
    requires Sorted(compare, s) && forall i, j | 0 <= i < |s| && 0 <= j < |s| :: compare(s[i], s[j]) == leq(key(s[i]), key(s[j]))
    ensures Sorted(leq, Mapped(key, s))
  {
    MappedIndices(key, s);
  }

  /** Two permutations sorted by the same keys carry the same key at every position. */
  lemma SortsAgreeUpToTies<T(!new), K(!new)>(compare: Comparator<T>, key: T -> K, leq: (K, K) -> bool, a: seq<T>, b: seq<T>)
    requires TotalOrder(leq) && forall x, y :: compare(x, y) == leq(key(x), key(y))
    requires Sorted(compare, a) && Sorted(compare, b) && multiset(a) == multiset(b)
    ensures |a| == |b| && forall i | 0 <= i < |a| :: key(a[i]) == key(b[i])
  {
    KeysAreSorted(compare, key, leq, a);
    KeysAreSorted(compare, key, leq, b);
    MappedPermuted(key, a, b);
    SortedIsUnique(leq, Mapped(key, a), Mapped(key, b));
    MappedIndices(key, a);
    MappedIndices(key, b);
  }

  lemma SameLength<T>(a: seq<T>, b: seq<T>)
    requires multiset(a) == multiset(b)
    ensures |a| == |b|
  {
    assert |multiset(a)| == |a| && |multiset(b)| == |b|;
  }

  // ---- The linked list ----

  /** `sorted_list_node`; a pointer is an index into the node memory. */
  datatype Item<T> = Item(next: int, data: T)

  /** Following `next` from `p` visits exactly `spine` and then ends. */
  ghost predicate Chained<T>(mem: seq<Item<T>>, p: int, spine: seq<int>) {
    && p == At(spine, 0) && NoDup(spine)
    && (forall i | 0 <= i < |spine| :: 0 <= spine[i] < |mem|)
    && (forall i {:trigger mem[spine[i]]} | 0 <= i < |spine| :: mem[spine[i]].next == At(spine, i + 1))
  }

  ghost function DataOf<T>(mem: seq<Item<T>>, spine: seq<int>): seq<T>
    requires forall i | 0 <= i < |spine| :: 0 <= spine[i] < |mem|
  {
    seq(|spine|, i requires 0 <= i < |spine| => mem[spine[i]].data)
  }

  ghost function Spliced<E>(s: seq<E>, k: nat, x: E): seq<E>
    requires k <= |s|
  {
    s[..k] + [x] + s[k..]
  }

  lemma SpliceDistinct(s: seq<int>, k: nat, x: int)
    requires k <= |s| && x !in s && NoDup(s)
    ensures NoDup(Spliced(s, k, x))
  {
    NoDupIsDistinct(s);
    NoDupIsDistinct(Spliced(s, k, x));
  }

  /** The memory after a new node with data `x` is hung in behind position `k`: behind its predecessor,
      or at the root when `k` is zero. */
  ghost function Hung<T>(mem: seq<Item<T>>, spine: seq<int>, k: nat, x: T): (r: seq<Item<T>>)
    requires k <= |spine| && forall i | 0 <= i < |spine| :: 0 <= spine[i] < |mem|
    ensures |r| == |mem| + 1 && r[|mem|] == Item(At(spine, k), x)
    ensures forall y | 0 <= y < |mem| :: r[y].data == mem[y].data
  {
    var grown := mem + [Item(At(spine, k), x)];
    if k == 0 then grown else grown[spine[k - 1] := grown[spine[k - 1]].(next := |mem|)]
  }

  lemma HungChain<T>(mem: seq<Item<T>>, p: int, spine: seq<int>, k: nat, x: T)
    requires Chained(mem, p, spine) && k <= |spine|
    ensures Chained(Hung(mem, spine, k, x), if k == 0 then |mem| else p, Spliced(spine, k, |mem|))
  {
    var r, mem' := Spliced(spine, k, |mem|), Hung(mem, spine, k, x);
    SpliceDistinct(spine, k, |mem|);
    NoDupIsDistinct(spine);
    forall i | 0 <= i < |r|
      ensures 0 <= r[i] < |mem'| && mem'[r[i]].next == At(r, i + 1)
    {
      assert r[i] == if i < k then spine[i] else if i == k then |mem| else spine[i - 1];
    }
  }

  lemma HungData<T>(mem: seq<Item<T>>, spine: seq<int>, k: nat, x: T)
    requires k <= |spine| && forall i | 0 <= i < |spine| :: 0 <= spine[i] < |mem|
    ensures var r := Spliced(spine, k, |mem|);
            && (forall i | 0 <= i < |r| :: 0 <= r[i] < |mem| + 1)
            && DataOf(Hung(mem, spine, k, x), r) == Spliced(DataOf(mem, spine), k, x)
  {
    var r, mem' := Spliced(spine, k, |mem|), Hung(mem, spine, k, x);
    forall i | 0 <= i < |r|
      ensures 0 <= r[i] < |mem'| && mem'[r[i]].data == Spliced(DataOf(mem, spine), k, x)[i]
    {
      assert r[i] == if i < k then spine[i] else if i == k then |mem| else spine[i - 1];
    }
  }

  /** `count` nodes from `base` on, chained in order. */
  ghost predicate IsBlock<T>(mem: seq<Item<T>>, base: nat, items: seq<T>) {
    && |mem| == base + |items|
    && forall x | base <= x < |mem| :: mem[x] == Item(if x + 1 < |mem| then x + 1 else NULL, items[x - base])
  }

  ghost function Indices(base: nat, n: nat): seq<int> {
    seq(n, j => base + j)
  }

  lemma BlockIsChained<T>(mem: seq<Item<T>>, base: nat, items: seq<T>)
    requires IsBlock(mem, base, items) && items != []
    ensures Chained(mem, base, Indices(base, |items|)) && DataOf(mem, Indices(base, |items|)) == items
  {
    var spine := Indices(base, |items|);
    NoDupIsDistinct(spine);
    forall i | 0 <= i < |spine|
      ensures mem[spine[i]].next == At(spine, i + 1)
    {
      assert spine[i] == base + i;
    }
  }

  class List<T(==, !new)> {
    const compare: Comparator<T>
    var mem: seq<Item<T>>
    var first: int
    ghost var spine: seq<int>

    ghost predicate Valid()
      reads this
    {
      Chained(mem, first, spine)
    }

    ghost function Contents(): seq<T>
      reads this
      requires Valid()
    {
      DataOf(mem, spine)
    }

    /** `sorted_list_initialise` */
    constructor (compare: Comparator<T>)
      ensures Valid() && Contents() == [] && this.compare == compare
    {
      this.compare := compare;
      mem, first, spine := [], NULL, [];
    }

    /** The walk of `sorted_list_insert`: the node to insert behind, null meaning the root. */
    method Walk(x: T) returns (prev: int, ghost k: nat)
      requires Valid()
      ensures k == Position(compare, Contents(), x)
      ensures prev == if k == 0 then NULL else spine[k - 1]
    {
      prev, k := NULL, 0;
      var node := first;
      ghost var s := Contents();
      assert s[0..] == s;
      while node != NULL && compare(x, mem[node].data)
        invariant k <= |spine| && node == At(spine, k)
        invariant prev == if k == 0 then NULL else spine[k - 1]
        invariant Position(compare, s, x) == k + Position(compare, s[k..], x)
        decreases |spine| - k
      {
        assert s[k..][1..] == s[k + 1..] && s[k..][0] == s[k] == mem[node].data;
        prev := node;
        node := mem[node].next;
        k := k + 1;
      }
    }

    /** `sorted_list_insert`: splices a new node in behind everything it does not precede. */
    method Insert(x: T)
      requires Valid()
      modifies this
      ensures Valid() && Contents() == Inserted(compare, old(Contents()), x)
    {
      var prev; ghost var k;
      prev, k := Walk(x);
      HungChain(mem, first, spine, k, x);
      HungData(mem, spine, k, x);
      var node := |mem|;
      mem := mem + [Item(if prev == NULL then first else mem[prev].next, x)];
      if prev == NULL {
        first := node;
      } else {
        mem := mem[prev := mem[prev].(next := node)];
      }
      spine := Spliced(spine, k, node);
    }

    /** The chain that `sorted_list_insert_batch` builds from the sorted items.  It hangs the new chain
        on the root, so whatever the list held before is dropped; no items leave the list alone. */
    method Chain(items: seq<T>)
      requires Valid()
      modifies this
      ensures Valid() && Contents() == if items == [] then old(Contents()) else items
    {
      if items == [] {
        return;
      }
      var base := |mem|;
      ghost var was := mem;
      var prev := NULL;
      var i := 0;
      while i < |items|
        invariant 0 <= i <= |items| && |mem| == base + i
        invariant prev == if i == 0 then NULL else base + i - 1
        invariant IsBlock(mem, base, items[..i])
        invariant i > 0 ==> first == base
      {
        assert items[..i + 1] == items[..i] + [items[i]];
        mem := mem + [Item(NULL, items[i])];
        if prev == NULL {
          first := base + i;
        } else {
          mem := mem[prev := mem[prev].(next := base + i)];
        }
        prev := base + i;
        i := i + 1;
      }
      assert items[..i] == items;
      BlockIsChained(mem, base, items);
      spine := Indices(base, |items|);
    }

    /** The walk with `sorted_list_next_item`. */
    method Items() returns (s: seq<T>)
      requires Valid()
      ensures s == Contents()
    {
      s := [];
      var node := first;
      while node != NULL
        invariant |s| <= |spine| && node == At(spine, |s|) && s == Contents()[..|s|]
        decreases |spine| - |s|
      {
        s := s + [mem[node].data];
        node := mem[node].next;
      }
    }

    /** `qsort`, which may leave ties in any order. */
    method Qsort(items: seq<T>) returns (sorted: seq<T>)
      requires TotalPreorder(compare) && items != []
      ensures SortOf(compare, items, sorted)
    {
      assert SortOf(compare, items, InsertAll(compare, items)) by {
        InsertAllSortsStably(compare, items, items[0]);
      }
      sorted :| SortOf(compare, items, sorted);
    }

    /** `sorted_list_insert_batch` */
    method InsertBatch(items: seq<T>)
      requires Valid() && TotalPreorder(compare)
      modifies this
      ensures Valid()
      ensures if items == [] then Contents() == old(Contents()) else SortOf(compare, items, Contents())
    {
      if items == [] {
        return;
      }
      var sorted := Qsort(items);
      SameLength(items, sorted);
      Chain(sorted);
    }
  }
}
