/** The address hash of src/data/map/addr_hash.c: any number of bucket tables over one node pool.
    The key type and the hash function are parameters, as they are in `hash_type`. */
module AddrHash {
  import opened Prelude
  import opened PoolTable

  /** Everything but the `next` links is the same. */
  ghost predicate SameContents<K(!new)>(m: Memory<K>, m': Memory<K>) {
    && |m| <= |m'|
    && forall x | 0 <= x < |m| ::
         m'[x].key == m[x].key && m'[x].record == m[x].record && m'[x].bucket == m[x].bucket
  }

  /** Every node on a chain sits in the bucket of its key and has that bucket cached. */
  ghost predicate Hashed<K(!new)>(mem: Memory<K>, owner: seq<Owner>, hash: K -> nat) {
    && |owner| == |mem|
    && forall x | 0 <= x < |mem| && owner[x].In? ::
         mem[x].bucket == owner[x].bucket && hash(mem[x].key) == owner[x].bucket
  }

  ghost predicate Counted(lay: Layout, loose: set<int>, blocks: nat) {
    && (forall x :: x in loose <==> 0 <= x < |lay.owner| && lay.owner[x] == Loose)
    && |lay.free| + Live(lay.chains) + |loose| == |lay.owner|
    && |lay.owner| == POOL_BLOCK_SIZE * blocks
  }

  /** In the list `s`, `r` comes right after `x`, or is null after the last one. */
  ghost predicate Follows(s: seq<int>, x: int, r: int) {
    exists i | 0 <= i < |s| :: s[i] == x && r == At(s, i + 1)
  }

  /** `s'` is `s` without its element `x`. */
  ghost predicate RemovedFrom(s: seq<int>, x: int, s': seq<int>) {
    exists i | 0 <= i < |s| :: s[i] == x && s' == RemoveAt(s, i)
  }

  /** `s'` is `s` with the new element `x` somewhere. */
  ghost predicate Added(s: seq<int>, x: int, s': seq<int>) {
    x !in s && exists i | 0 <= i <= |s| :: s' == s[..i] + [x] + s[i..]
  }

  /** Where element `j` of bucket `b` comes in the iteration. */
  ghost function FlatIndex(rows: seq<seq<int>>, b: nat, j: nat): nat
    requires b < |rows|
  {
    |Flatten(rows[..b])| + j
  }

  lemma FlattenAdd(rows: seq<seq<int>>, b: nat, x: int)
    requires b < |rows| && x !in Flatten(rows)
    ensures Added(Flatten(rows), x, Flatten(rows[b := [x] + rows[b]]))
  {
    FlattenAround(rows, b);
    FlattenPut(rows, b, [x] + rows[b]);
    var i := |Flatten(rows[..b])|;
    assert Flatten(rows)[..i] == Flatten(rows[..b]);
    assert Flatten(rows)[i..] == rows[b] + Flatten(rows[b + 1..]);
    assert Flatten(rows[b := [x] + rows[b]]) == Flatten(rows)[..i] + [x] + Flatten(rows)[i..];
  }

  /** The records of the nodes `items`, in order. */
  ghost function Records<K>(mem: Memory<K>, items: seq<int>): seq<int> {
    seq(|items|, i requires 0 <= i < |items| =>
      if 0 <= items[i] < |mem| then mem[items[i]].record else NULL)
  }

  lemma RecordsJoin<K(!new)>(m: Memory<K>, m': Memory<K>, a: seq<int>, b: seq<int>)
    requires SameContents(m, m') && |m| == |m'|
    ensures Records(m', b) == Records(m, b)
    ensures Records(m, a + b) == Records(m, a) + Records(m, b)
  {
  }

  lemma RecordsSnoc<K(!new)>(m: Memory<K>, m': Memory<K>, c: seq<int>, j: nat)
    requires SameContents(m, m') && |m| == |m'| && j < |c| && 0 <= c[j] < |m|
    ensures Records(m, c[..j + 1]) == Records(m, c[..j]) + [m'[c[j]].record]
  {
    assert c[..j + 1] == c[..j] + [c[j]];
  }

  lemma SameContentsTwice<K(!new)>(m: Memory<K>, m': Memory<K>, m'': Memory<K>)
    requires SameContents(m, m') && SameContents(m', m'')
    ensures SameContents(m, m'')
  {
  }

  /** A chain that starts at the null pointer is empty. */
  lemma NullChainIsEmpty<K>(mem: Memory<K>, c: seq<int>, owner: seq<Owner>, who: Owner)
    requires ListOk(mem, NULL, c, owner, who)
    ensures c == []
  {
  }

  ghost function EmptiedUpTo(rows: seq<seq<int>>, i: nat): seq<seq<int>> {
    seq(|rows|, b requires 0 <= b < |rows| => if b < i then [] else rows[b])
  }

  ghost function EmptiedHeads(heads: seq<int>, i: nat): seq<int> {
    seq(|heads|, b requires 0 <= b < |heads| => if b < i then NULL else heads[b])
  }

  lemma EmptyNone(tables: seq<seq<int>>, chains: seq<seq<seq<int>>>, t: nat)
    requires t < |tables| == |chains|
    ensures tables[t := EmptiedHeads(tables[t], 0)] == tables
    ensures chains[t := EmptiedUpTo(chains[t], 0)] == chains
    ensures Flatten(chains[t][..0]) == []
  {
    assert EmptiedHeads(tables[t], 0) == tables[t];
    assert EmptiedUpTo(chains[t], 0) == chains[t];
  }

  lemma EmptyOneMore(tables: seq<seq<int>>, chains: seq<seq<seq<int>>>, t: nat, i: nat)
    requires t < |tables| == |chains| && i < |tables[t]| == |chains[t]|
    ensures tables[t := EmptiedHeads(tables[t], i + 1)] == Put(tables[t := EmptiedHeads(tables[t], i)], t, i, NULL)
    ensures chains[t := EmptiedUpTo(chains[t], i + 1)] == Put(chains[t := EmptiedUpTo(chains[t], i)], t, i, [])
    ensures Flatten(chains[t][..i + 1]) == Flatten(chains[t][..i]) + chains[t][i]
  {
    assert EmptiedHeads(tables[t], i + 1) == EmptiedHeads(tables[t], i)[i := NULL];
    assert EmptiedUpTo(chains[t], i + 1) == EmptiedUpTo(chains[t], i)[i := []];
    var rows := chains[t];
    FlattenSplit(rows[..i + 1], i);
    assert rows[..i + 1][..i] == rows[..i];
    assert rows[..i + 1][i..] == [rows[i]];
  }

  lemma {:induction false} AllEmptyFlattens(rows: seq<seq<int>>)
    requires forall b | 0 <= b < |rows| :: rows[b] == []
    ensures Flatten(rows) == []
  {
    if rows == [] {
    } else {
      AllEmptyFlattens(rows[1..]);
    }
  }

  /** A run of empty buckets takes no place in the iteration. */
  lemma {:induction false} SkipEmpty(rows: seq<seq<int>>, from: nat, end: nat)
    requires from <= end <= |rows|
    requires forall b | from <= b < end :: rows[b] == []
    ensures |Flatten(rows[..end])| == |Flatten(rows[..from])|
    decreases end
  {
    if from == end {
    } else {
      SkipEmpty(rows, from, end - 1);
      FlattenSplit(rows[..end], end - 1);
      assert rows[..end][..end - 1] == rows[..end - 1];
      assert rows[..end][end - 1..] == [rows[end - 1]];
    }
  }

  lemma FlattenFirst(rows: seq<seq<int>>, b: nat)
    requires b <= |rows| && (b < |rows| ==> rows[b] != [])
    ensures At(Flatten(rows), |Flatten(rows[..b])|) == if b < |rows| then rows[b][0] else NULL
  {
    if b < |rows| {
      FlattenAround(rows, b);
    } else {
      assert rows[..b] == rows;
    }
  }

  /** Everything that follows bucket position `(b, j)` starts with the rest of its chain. */
  lemma FlattenNext(rows: seq<seq<int>>, b: nat, j: nat)
    requires b < |rows| && j < |rows[b]|
    ensures FlatIndex(rows, b, j) < |Flatten(rows)| && Flatten(rows)[FlatIndex(rows, b, j)] == rows[b][j]
    ensures j + 1 < |rows[b]| ==> At(Flatten(rows), FlatIndex(rows, b, j) + 1) == rows[b][j + 1]
    ensures j + 1 == |rows[b]| ==> FlatIndex(rows, b, j) + 1 == |Flatten(rows[..b + 1])|
  {
    FlattenAround(rows, b);
    FlattenSplit(rows[..b + 1], b);
    assert rows[..b + 1][..b] == rows[..b];
    assert rows[..b + 1][b..] == [rows[b]];
  }

  lemma RemoveInMiddle(a: seq<int>, b: seq<int>, c: seq<int>, j: nat)
    requires j < |b|
    ensures RemoveAt(a + b + c, |a| + j) == a + RemoveAt(b, j) + c && (a + b + c)[|a| + j] == b[j]
  {
  }

  lemma FlattenRemove(rows: seq<seq<int>>, b: nat, j: nat)
    requires b < |rows| && j < |rows[b]|
    ensures var i := FlatIndex(rows, b, j);
            && i < |Flatten(rows)| && Flatten(rows)[i] == rows[b][j]
            && Flatten(rows[b := RemoveAt(rows[b], j)]) == RemoveAt(Flatten(rows), i)
  {
    FlattenAround(rows, b);
    FlattenPut(rows, b, RemoveAt(rows[b], j));
    RemoveInMiddle(Flatten(rows[..b]), rows[b], Flatten(rows[b + 1..]), j);
  }

  ghost function NoChains(n: nat, size: nat): seq<seq<seq<int>>> {
    seq(n, _ => seq(size, _ => []))
  }

  lemma {:induction false} NothingLive(n: nat, size: nat)
    ensures forall t | 0 <= t < n :: Flatten(NoChains(n, size)[t]) == []
    ensures Live(NoChains(n, size)) == 0
    decreases n
  {
    var all := NoChains(n, size);
    if n == 0 {
    } else {
      AllEmptyFlattens(all[0]);
      NothingLive(n - 1, size);
      assert all[1..] == NoChains(n - 1, size);
      assert forall t | 0 <= t < n :: all[t] == all[0];
    }
  }

  lemma EmptyShape<K(!new)>(n: nat, size: nat, tables: seq<seq<int>>)
    requires |tables| == n && forall t | 0 <= t < n :: |tables[t]| == size && forall b | 0 <= b < size :: tables[t][b] == NULL
    ensures WellShaped<K>([], NULL, tables, Layout([], NoChains(n, size), []), size)
  {
    var chains := NoChains(n, size);
    forall t, b | 0 <= t < n && 0 <= b < size
      ensures |chains[t]| == size && ListOk<K>([], tables[t][b], chains[t][b], [], In(t, b))
    {
      assert chains[t][b] == [];
    }
  }

  lemma GrownKeeps<K(!new)>(mem: Memory<K>, mem': Memory<K>, lay: Layout, hash: K -> nat, blocks: nat)
    requires mem <= mem' && |mem'| == |mem| + POOL_BLOCK_SIZE && lay.free == []
    requires Hashed(mem, lay.owner, hash) && Counted(lay, {}, blocks)
    ensures Hashed(mem', Grown(lay, |mem|).owner, hash) && Counted(Grown(lay, |mem|), {|mem|}, blocks + 1)
  {
    var owner' := Grown(lay, |mem|).owner;
    forall x | 0 <= x < |mem'|
      ensures owner'[x] == if x < |mem| then lay.owner[x] else if x == |mem| then Loose else Free
      ensures x < |mem| ==> owner'[x] != Loose && mem'[x] == mem[x]
    {
      assert x < |mem| && lay.owner[x] == Loose ==> x in {};
    }
  }

  class Heap<K(0, ==, !new)> {
    const size: nat
    const hash: K -> nat

    var mem: Memory<K>
    var freeList: int
    var blocks: nat
    var tables: seq<seq<int>>
    ghost var lay: Layout

    /** `loose` holds the nodes handed out by `Alloc` and not yet linked or returned. */
    ghost predicate Valid(loose: set<int>)
      reads this
    {
      Consistent(tables, loose)
    }

    /** `Valid` for the bucket heads `heads`, which trail `tables` while a table is being emptied. */
    ghost predicate Consistent(heads: seq<seq<int>>, loose: set<int>)
      reads this
    {
      && (forall k :: hash(k) < size)
      && WellShaped(mem, freeList, heads, lay, size)
      && Hashed(mem, lay.owner, hash)
      && Counted(lay, loose, blocks)
    }

    /** The nodes of table `t` in iteration order. */
    ghost function Items(t: nat): seq<int>
      reads this
      requires t < |lay.chains|
    {
      Flatten(lay.chains[t])
    }

    constructor (size: nat, hash: K -> nat, tableCount: nat)
      requires forall k :: hash(k) < size
      ensures Valid({})
      ensures this.size == size && this.hash == hash && |tables| == tableCount && mem == []
      ensures forall t | 0 <= t < tableCount :: Items(t) == []
    {
      this.size := size;
      this.hash := hash;
      mem, freeList, blocks := [], NULL, 0;
      tables := seq(tableCount, _ => seq(size, _ => NULL));
      lay := Layout([], NoChains(tableCount, size), []);
      new;
      EmptyShape<K>(tableCount, size, tables);
      NothingLive(tableCount, size);
    }

    /** `pool_alloc` */
    method Alloc() returns (p: int)
      requires Valid({})
      modifies this`mem, this`freeList, this`blocks, this`lay
      ensures 0 <= p < |mem| && Valid({p}) && old(mem) <= mem
      ensures lay.chains == old(lay.chains)
      ensures p < |old(mem)| ==> old(lay.owner)[p] == Free
      ensures old(lay.free) != [] ==> [p] + lay.free == old(lay.free) && blocks == old(blocks)
      ensures old(lay.free) == [] ==> p == |old(mem)| && blocks == old(blocks) + 1
      ensures forall x | 0 <= x < |old(mem)| && old(lay.owner)[x].In? :: lay.owner[x] == old(lay.owner)[x]
    {
      if freeList != NULL {
        p := freeList;
        ShapeAfterTake(mem, freeList, tables, lay, size);
        freeList := mem[p].next;
        lay := Taken(lay);
      } else {
        p := Grow();
      }
    }

    /** The slow path of `pool_alloc`: a new block, whose first item is handed out. */
    method Grow() returns (p: int)
      requires Valid({}) && freeList == NULL
      modifies this`mem, this`freeList, this`blocks, this`lay
      ensures p == |old(mem)| < |mem| && Valid({p}) && old(mem) <= mem
      ensures lay == Grown(old(lay), p)
    {
      p := |mem|;
      AddBlock();
      ShapeAfterGrow(old(mem), mem, tables, lay, size);
      GrownKeeps(old(mem), mem, lay, hash, blocks - 1);
      lay := Grown(lay, p);
      freeList := p + 1;
    }

    /** Appends a block of uninitialised nodes and threads items 1 to 255. */
    method AddBlock()
      modifies this`mem, this`blocks
      ensures blocks == old(blocks) + 1
      ensures old(mem) <= mem && ThreadedBlock(mem, |old(mem)|)
    {
      var base := |mem|;
      var junk: Node<K> := *;
      mem := mem + seq(POOL_BLOCK_SIZE, _ => junk);
      var i := 1;
      while i < POOL_BLOCK_SIZE - 1
        invariant 1 <= i <= POOL_BLOCK_SIZE - 1
        invariant |mem| == base + POOL_BLOCK_SIZE && mem[..base] == old(mem)
        invariant blocks == old(blocks)
        invariant forall x | base < x < base + i :: mem[x].next == x + 1
      {
        mem := mem[base + i := mem[base + i].(next := base + i + 1)];
        i := i + 1;
      }
      mem := mem[base + POOL_BLOCK_SIZE - 1 := mem[base + POOL_BLOCK_SIZE - 1].(next := NULL)];
      blocks := blocks + 1;
      assert mem[..base] == old(mem);
    }

    /** `pool_free` */
    method Release(p: int, ghost heads: seq<seq<int>>)
      requires 0 <= p < |mem| && Consistent(heads, {p})
      modifies this`mem, this`freeList, this`lay
      ensures Consistent(heads, {}) && lay.free == [p] + old(lay.free)
      ensures lay.chains == old(lay.chains)
      ensures SameContents(old(mem), mem) && |mem| == |old(mem)|
      ensures lay.owner == old(lay.owner)[p := Free]
    {
      ShapeAfterRelease(mem, freeList, heads, lay, size, p);
      mem := mem[p := mem[p].(next := freeList)];
      freeList := p;
      lay := Released(lay, p);
    }

    /** Where iteration goes on after `node`: down its chain, or else in the next bucket. */
    lemma AfterItem(t: nat, node: int) returns (target: nat)
      requires Valid({}) && t < |tables| && node in Items(t)
      ensures 0 <= node < |mem| && 0 <= mem[node].bucket < size
      ensures 0 < target <= |Items(t)| && Items(t)[target - 1] == node
      ensures mem[node].next != NULL ==> At(Items(t), target) == mem[node].next
      ensures mem[node].next == NULL ==> target == |Flatten(lay.chains[t][..mem[node].bucket + 1])|
    {
      ItemsOfTable(mem, tables, lay, size, t);
      var b := lay.owner[node].bucket;
      var c := lay.chains[t][b];
      assert ListOk(mem, tables[t][b], c, lay.owner, In(t, b));
      var j :| 0 <= j < |c| && c[j] == node;
      FlattenNext(lay.chains[t], b, j);
      target := FlatIndex(lay.chains[t], b, j) + 1;
    }

    /** `hash_next_item`: the successor in iteration order; null starts the iteration and ends it. */
    method NextItem(t: nat, node: int) returns (r: int)
      requires Valid({}) && t < |tables|
      requires node == NULL || node in Items(t)
      ensures node == NULL ==> r == At(Items(t), 0)
      ensures node != NULL ==> Follows(Items(t), node, r)
    {
      var i := 0;
      ghost var target := 0;
      if node != NULL {
        target := AfterItem(t, node);
        if mem[node].next != NULL {
          r := mem[node].next;
          return;
        }
        i := mem[node].bucket + 1;
      }
      r := FirstFrom(t, i, target);
    }

    /** The scan of `hash_next_item` for the next bucket in use. */
    method FirstFrom(t: nat, from: nat, ghost target: nat) returns (r: int)
      requires Valid({}) && t < |tables| && from <= size
      requires target == |Flatten(lay.chains[t][..from])|
      ensures r == At(Items(t), target)
    {
      ghost var rows := lay.chains[t];
      var i := from;
      while i < size && tables[t][i] == NULL
        invariant from <= i <= size
        invariant forall b | from <= b < i :: rows[b] == []
      {
        assert ListOk(mem, tables[t][i], rows[i], lay.owner, In(t, i));
        i := i + 1;
      }
      SkipEmpty(rows, from, i);
      if i < size {
        assert ListOk(mem, tables[t][i], rows[i], lay.owner, In(t, i));
      }
      FlattenFirst(rows, i);
      r := if i == size then NULL else tables[t][i];
    }

    /** `addr_hash_insert`: the new node goes to the front of its bucket. */
    method Insert(t: nat, key: K, record: int) returns (p: int)
      requires Valid({}) && t < |tables|
      modifies this
      ensures Valid({}) && |tables| == |old(tables)|
      ensures lay.chains == Put(old(lay.chains), t, hash(key), [p] + old(lay.chains)[t][hash(key)])
      ensures 0 <= p < |mem| && (p < |old(mem)| ==> old(lay.owner)[p] == Free)
      ensures Added(old(Items(t)), p, Items(t))
      ensures mem[p].key == key && mem[p].record == record
      ensures |old(mem)| <= |mem|
      ensures forall x | 0 <= x < |old(mem)| && old(lay.owner)[x].In? :: mem[x] == old(mem)[x]
      ensures forall x | x in old(Items(t)) :: 0 <= x < |old(mem)| && mem[x] == old(mem)[x]
    {
      var bucket := hash(key);
      ItemsOfTable(mem, tables, lay, size, t);
      p := Alloc();
      FlattenAdd(lay.chains[t], bucket, p);
      Link(t, key, record, p);
    }

    /** Fills in a node from the pool and makes it the head of its bucket. */
    method Link(t: nat, key: K, record: int, p: int)
      requires 0 <= p < |mem| && Valid({p}) && t < |tables|
      modifies this`mem, this`tables, this`lay
      ensures Valid({}) && |tables| == |old(tables)|
      ensures lay.chains == Put(old(lay.chains), t, hash(key), [p] + old(lay.chains)[t][hash(key)])
      ensures mem == old(mem)[p := Node(old(tables)[t][hash(key)], key, record, hash(key))]
    {
      var bucket := hash(key);
      var n := Node(tables[t][bucket], key, record, bucket);
      ShapeAfterLink(mem, freeList, tables, lay, size, t, bucket, p, n);
      LivePut(lay.chains, t, bucket, [p] + lay.chains[t][bucket]);
      mem := mem[p := n];
      tables := Put(tables, t, bucket, p);
      lay := Linked(lay, t, bucket, p);
    }

    /** `addr_hash_find`: the frontmost node with the key, if the table has one. */
    method Find(t: nat, key: K) returns (p: int)
      requires Valid({}) && t < |tables|
      ensures p == NULL ==> forall x | x in Items(t) :: 0 <= x < |mem| && mem[x].key != key
      ensures p != NULL ==> p in Items(t) && 0 <= p < |mem| && mem[p].key == key
      ensures p != NULL ==> FirstWithKey(lay.chains[t][hash(key)], key, p)
    {
      var b := hash(key);
      ghost var c := lay.chains[t][b];
      p := tables[t][b];
      ghost var j := 0;
      assert ListOk(mem, tables[t][b], c, lay.owner, In(t, b));
      while p != NULL && mem[p].key != key
        invariant 0 <= j <= |c| && p == At(c, j)
        invariant forall i {:trigger mem[c[i]]} | 0 <= i < j :: mem[c[i]].key != key
        decreases |c| - j
      {
        p := mem[p].next;
        j := j + 1;
      }
      ItemsOfTable(mem, tables, lay, size, t);
      if p == NULL {
        forall x | x in Items(t)
          ensures 0 <= x < |mem| && mem[x].key != key
        {
          assert lay.owner[x] == In(t, b) ==> x in c;
        }
      }
    }

    ghost predicate FirstWithKey(c: seq<int>, key: K, p: int)
      reads this
    {
      exists j | 0 <= j < |c| :: c[j] == p && forall i | 0 <= i < j :: 0 <= c[i] < |mem| && mem[c[i]].key != key
    }

    /** The chain walk of `addr_hash_delete_node`. */
    method Seek(t: nat, b: nat, target: int) returns (prev: int, node: int, ghost j: nat)
      requires Valid({}) && t < |tables| && b < size && target != NULL
      ensures j <= |lay.chains[t][b]| && node == At(lay.chains[t][b], j)
      ensures prev == if j == 0 then NULL else lay.chains[t][b][j - 1]
      ensures node == if target in lay.chains[t][b] then target else NULL
    {
      ghost var c := lay.chains[t][b];
      assert ListOk(mem, tables[t][b], c, lay.owner, In(t, b));
      prev, node, j := NULL, tables[t][b], 0;
      while node != NULL && node != target
        invariant j <= |c| && node == At(c, j)
        invariant prev == if j == 0 then NULL else c[j - 1]
        invariant target !in c[..j]
        decreases |c| - j
      {
        prev := node;
        node := mem[node].next;
        j := j + 1;
      }
    }

    /** Redirects the predecessor, or the bucket head, past `node`. */
    method Unlink(t: nat, b: nat, prev: int, node: int, ghost j: nat)
      requires Valid({}) && t < |tables| && b < size
      requires j < |lay.chains[t][b]| && node == lay.chains[t][b][j]
      requires prev == if j == 0 then NULL else lay.chains[t][b][j - 1]
      modifies this`mem, this`tables, this`lay
      ensures 0 <= node < |mem| && Valid({node})
      ensures |tables| == |old(tables)| && |mem| == |old(mem)| && SameContents(old(mem), mem)
      ensures lay.chains == Put(old(lay.chains), t, b, RemoveAt(old(lay.chains)[t][b], j))
      ensures lay.free == old(lay.free) && lay.owner == old(lay.owner)[node := Loose]
    {
      assert ListOk(mem, tables[t][b], lay.chains[t][b], lay.owner, In(t, b));
      LivePut(lay.chains, t, b, RemoveAt(lay.chains[t][b], j));
      if prev != NULL {
        ShapeAfterUnlinkLater(mem, freeList, tables, lay, size, t, b, j);
        mem := mem[prev := mem[prev].(next := mem[node].next)];
      } else {
        ShapeAfterUnlinkFirst(mem, freeList, tables, lay, size, t, b);
        tables := Put(tables, t, b, mem[node].next);
      }
      lay := Unlinked(lay, t, b, j);
    }

    /** The end of `addr_hash_delete_node`: unlinks the node that the walk found and frees it. */
    method Remove(t: nat, b: nat, prev: int, node: int, ghost j: nat)
      requires Valid({}) && t < |tables| && b < size
      requires j < |lay.chains[t][b]| && node == lay.chains[t][b][j]
      requires prev == if j == 0 then NULL else lay.chains[t][b][j - 1]
      modifies this
      ensures Valid({}) && |tables| == |old(tables)|
      ensures |mem| == |old(mem)| && SameContents(old(mem), mem)
      ensures forall t' | 0 <= t' < |lay.chains| && t' != t :: lay.chains[t'] == old(lay.chains)[t']
      ensures 0 <= node < |old(lay.owner)| && lay.owner == old(lay.owner)[node := Free]
      ensures lay.free == [node] + old(lay.free) && RemovedFrom(old(Items(t)), node, Items(t))
    {
      FlattenRemove(lay.chains[t], b, j);
      Unlink(t, b, prev, node, j);
      Release(node, tables);
    }

    lemma ItemIsInItsBucket(t: nat, target: int)
      requires Valid({}) && t < |tables| && 0 <= target < |mem| && 0 <= mem[target].bucket < size
      ensures target in Items(t) <==> target in lay.chains[t][mem[target].bucket]
    {
      ItemsOfTable(mem, tables, lay, size, t);
      var b := mem[target].bucket;
      assert ListOk(mem, tables[t][b], lay.chains[t][b], lay.owner, In(t, b));
    }

    /** `addr_hash_delete_node`: a target that is not on its bucket's chain is left alone. */
    method DeleteNode(t: nat, target: int)
      requires Valid({}) && t < |tables|
      requires 0 <= target < |mem| && 0 <= mem[target].bucket < size
      modifies this
      ensures Valid({}) && |tables| == |old(tables)|
      ensures |mem| == |old(mem)| && SameContents(old(mem), mem)
      ensures forall t' | 0 <= t' < |lay.chains| && t' != t :: lay.chains[t'] == old(lay.chains)[t']
      ensures target !in old(Items(t)) ==> lay == old(lay)
      ensures target in old(Items(t)) ==>
                && lay.free == [target] + old(lay.free)
                && lay.owner == old(lay.owner)[target := Free]
                && RemovedFrom(old(Items(t)), target, Items(t))
    {
      var b := mem[target].bucket;
      var prev, node; ghost var j;
      prev, node, j := Seek(t, b, target);
      ItemIsInItsBucket(t, target);
      if node != NULL {
        Remove(t, b, prev, node, j);
      }
    }

    /** Of the original chain `c` of bucket `(t, b)`, `c[j..]` is left and starts at `node`. */
    ghost predicate Draining(t: nat, b: nat, node: int, heads: seq<seq<int>>, chains: seq<seq<seq<int>>>,
                             c: seq<int>, j: nat)
      reads this
    {
      && |heads| == |chains| && t < |heads| && |heads[t]| == |chains[t]| == size && b < size && j <= |c|
      && Consistent(Put(heads, t, b, node), {})
      && lay.chains == Put(chains, t, b, c[j..])
    }

    lemma Drained(t: nat, b: nat, heads: seq<seq<int>>, chains: seq<seq<seq<int>>>, c: seq<int>, j: nat)
      requires Draining(t, b, NULL, heads, chains, c, j)
      ensures j == |c| && lay.chains == Put(chains, t, b, [])
    {
      assert ListOk(mem, Put(heads, t, b, NULL)[t][b], c[j..], lay.owner, In(t, b));
      NullChainIsEmpty(mem, c[j..], lay.owner, In(t, b));
    }

    /** One turn of the inner loop of `addr_hash_delete_all_free`: `tables` still points at the nodes
        already returned, so the bucket's true head is `node`, with `c[j..]` left of the chain `c`. */
    method FreeFirst(t: nat, b: nat, node: int, ghost heads: seq<seq<int>>,
                     ghost chains: seq<seq<seq<int>>>, ghost c: seq<int>, ghost j: nat)
      returns (record: int, next: int)
      requires Draining(t, b, node, heads, chains, c, j) && node != NULL
      modifies this`mem, this`freeList, this`lay
      ensures |mem| == |old(mem)| && SameContents(old(mem), mem)
      ensures j < |c| && 0 <= c[j] < |mem| && record == old(mem)[c[j]].record
      ensures Draining(t, b, next, heads, chains, c, j + 1)
    {
      ghost var rest := c[j..];
      assert ListOk(mem, Put(heads, t, b, node)[t][b], rest, lay.owner, In(t, b));
      assert RemoveAt(rest, 0) == rest[1..] == c[j + 1..];
      record, next := mem[node].record, mem[node].next;
      ShapeAfterUnlinkFirst(mem, freeList, Put(heads, t, b, node), lay, size, t, b);
      LivePut(lay.chains, t, b, rest[1..]);
      PutTwice(heads, t, b, node, next);
      PutTwice(chains, t, b, rest, rest[1..]);
      lay := Unlinked(lay, t, b, 0);
      Release(node, Put(heads, t, b, next));
    }

    lemma StartDraining(t: nat, b: nat, heads: seq<seq<int>>)
      requires Consistent(heads, {}) && t < |heads| && b < size
      ensures Draining(t, b, heads[t][b], heads, lay.chains, lay.chains[t][b], 0)
    {
      PutSame(heads, t, b);
      PutSame(lay.chains, t, b);
      assert lay.chains[t][b][0..] == lay.chains[t][b];
    }

    /** The inner loop of `addr_hash_delete_all_free`; `freed` lists the records passed to `free`. */
    method FreeBucket(t: nat, b: nat, ghost heads: seq<seq<int>>) returns (freed: seq<int>)
      requires Consistent(heads, {}) && |heads| == |tables| && t < |tables| && b < size
      requires |tables[t]| == size && heads[t][b] == tables[t][b]
      modifies this`mem, this`freeList, this`lay
      ensures Consistent(Put(heads, t, b, NULL), {})
      ensures lay.chains == Put(old(lay.chains), t, b, [])
      ensures |mem| == |old(mem)| && SameContents(old(mem), mem)
      ensures freed == Records(old(mem), old(lay.chains)[t][b])
    {
      freed := [];
      var node := tables[t][b];
      ghost var chains := lay.chains;
      ghost var c := chains[t][b];
      ghost var j := 0;
      StartDraining(t, b, heads);
      assert c[..0] == [];
      while node != NULL
        invariant Draining(t, b, node, heads, chains, c, j)
        invariant |mem| == |old(mem)| && SameContents(old(mem), mem)
        invariant freed == Records(old(mem), c[..j])
        decreases |c| - j
      {
        ghost var before := mem;
        var record;
        record, node := FreeFirst(t, b, node, heads, chains, c, j);
        RecordsSnoc(old(mem), before, c, j);
        SameContentsTwice(old(mem), before, mem);
        freed := freed + [record];
        j := j + 1;
      }
      Drained(t, b, heads, chains, c, j);
      assert c[..j] == c;
    }

    /** The outer loop of `addr_hash_delete_all_free`. */
    method FreeBuckets(t: nat) returns (freed: seq<int>)
      requires Valid({}) && t < |tables|
      modifies this`mem, this`freeList, this`lay
      ensures Consistent(tables[t := EmptiedHeads(tables[t], size)], {})
      ensures lay.chains == old(lay.chains)[t := EmptiedUpTo(old(lay.chains)[t], size)]
      ensures |mem| == |old(mem)| && SameContents(old(mem), mem)
      ensures freed == Records(old(mem), Flatten(old(lay.chains)[t][..size]))
    {
      freed := [];
      ghost var chains := lay.chains;
      EmptyNone(tables, chains, t);
      var i := 0;
      while i < size
        invariant 0 <= i <= size
        invariant Consistent(tables[t := EmptiedHeads(tables[t], i)], {})
        invariant lay.chains == chains[t := EmptiedUpTo(chains[t], i)]
        invariant |mem| == |old(mem)| && SameContents(old(mem), mem)
        invariant freed == Records(old(mem), Flatten(chains[t][..i]))
      {
        EmptyOneMore(tables, chains, t, i);
        RecordsJoin(old(mem), mem, Flatten(chains[t][..i]), chains[t][i]);
        var more := FreeBucket(t, i, tables[t := EmptiedHeads(tables[t], i)]);
        freed := freed + more;
        i := i + 1;
      }
    }

    /** `addr_hash_delete_all_free`: empties one table, frees each of its records once, in order, and
        gives all of its nodes back to the pool. */
    method DeleteAllFree(t: nat) returns (freed: seq<int>)
      requires Valid({}) && t < |tables|
      modifies this`mem, this`freeList, this`tables, this`lay
      ensures Valid({}) && |tables| == |old(tables)|
      ensures Items(t) == [] && forall u | 0 <= u < |tables| && u != t :: lay.chains[u] == old(lay.chains)[u]
      ensures |mem| == |old(mem)| && SameContents(old(mem), mem)
      ensures freed == Records(old(mem), old(Items(t)))
    {
      assert lay.chains[t][..size] == lay.chains[t];
      freed := FreeBuckets(t);
      assert EmptiedHeads(tables[t], size) == seq(size, _ => NULL);
      tables := tables[t := seq(size, _ => NULL)];
      AllEmptyFlattens(lay.chains[t]);
    }
  }

  lemma ItemFacts<K(0, !new)>(h: Heap<K>, t: nat)
    requires h.Valid({}) && t < |h.tables|
    ensures NoDup(h.Items(t))
    ensures forall x | x in h.Items(t) ::
              0 <= x < |h.mem| && |h.lay.owner| == |h.mem| && h.lay.owner[x].In? && 0 <= h.mem[x].bucket < h.size
  {
    ItemsOfTable(h.mem, h.tables, h.lay, h.size, t);
  }

  /** Pool ownership: every node is on the free list or in exactly one table, where iteration meets
      it exactly once, and no node is ever lost. */
  lemma ExactlyOneList<K(0, !new)>(h: Heap<K>)
    requires h.Valid({})
    ensures NoDup(h.lay.free)
    ensures forall t | 0 <= t < |h.tables| :: NoDup(h.Items(t))
    ensures forall x | 0 <= x < |h.mem| ::
              x in h.lay.free <==> !exists t :: 0 <= t < |h.tables| && x in h.Items(t)
    ensures forall x, t, u | 0 <= t < u < |h.tables| :: !(x in h.Items(t) && x in h.Items(u))
    ensures |h.lay.free| + Live(h.lay.chains) == 256 * h.blocks
  {
    forall t | 0 <= t < |h.tables|
      ensures NoDup(h.Items(t))
      ensures forall x :: x in h.Items(t) <==>
                0 <= x < |h.lay.owner| && h.lay.owner[x].In? && h.lay.owner[x].table == t
    {
      ItemsOfTable(h.mem, h.tables, h.lay, h.size, t);
    }
    forall x | 0 <= x < |h.mem|
      ensures x in h.lay.free <==> !exists t :: 0 <= t < |h.tables| && x in h.Items(t)
    {
      if h.lay.owner[x].In? {
        assert x in h.Items(h.lay.owner[x].table);
      }
    }
  }
}
