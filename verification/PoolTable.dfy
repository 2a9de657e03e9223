/** Chained hash tables whose nodes come from one shared pool: `pool_alloc` / `pool_free` and the
    table operations of src/data/map/addr_hash.c, with the iterator of src/data/map/hash.c.

    Node memory is an arena and a pointer is an index into it, so that the free list and every
    bucket chain of every table are threaded through the same `next` cells and may alias. */
module PoolTable {
  import opened Prelude

  const POOL_BLOCK_SIZE := 256

  /** `node_key_pair`: the chain node with its embedded key. */
  datatype Node<K> = Node(next: int, key: K, record: int, bucket: int)

  type Memory<K> = seq<Node<K>>

  // ---- Ghost layout: which list every node is on ----

  datatype Owner = Free | In(table: int, bucket: int) | Loose

  datatype Layout = Layout(free: seq<int>, chains: seq<seq<seq<int>>>, owner: seq<Owner>)

  /** Element `i` of a list, or the terminating null pointer. */
  function At(c: seq<int>, i: nat): int {
    if i < |c| then c[i] else NULL
  }

  /** No element occurs twice. */
  ghost predicate NoDup(c: seq<int>) {
    forall i | 0 <= i < |c| :: c[i] !in c[..i]
  }

  ghost predicate Distinct(c: seq<int>) {
    forall i, j | 0 <= i < j < |c| :: c[i] != c[j]
  }

  /** The two ways of saying it; the pairwise one is dearer to keep around. */
  lemma NoDupIsDistinct(c: seq<int>)
    ensures NoDup(c) <==> Distinct(c)
  {
    if NoDup(c) {
      forall i, j | 0 <= i < j < |c|
        ensures c[i] != c[j]
      {
        assert c[..j][i] == c[i];
      }
    }
  }

  /** Following `next` from `p` visits exactly `c` and then ends. */
  ghost predicate Chain<K>(mem: Memory<K>, p: int, c: seq<int>) {
    && p == At(c, 0)
    && (forall i | 0 <= i < |c| :: 0 <= c[i] < |mem|)
    && (forall i {:trigger mem[c[i]]} | 0 <= i < |c| :: mem[c[i]].next == At(c, i + 1))
  }

  /** The list headed by `p` consists of exactly the nodes owned by `who`, once each. */
  ghost predicate ListOk<K>(mem: Memory<K>, p: int, c: seq<int>, owner: seq<Owner>, who: Owner) {
    && |owner| == |mem|
    && Chain(mem, p, c)
    && NoDup(c)
    && (forall x :: x in c <==> 0 <= x < |owner| && owner[x] == who)
  }

  ghost predicate TablesOk<K>(mem: Memory<K>, tables: seq<seq<int>>, lay: Layout, size: nat) {
    && |lay.chains| == |tables|
    && (forall t | 0 <= t < |tables| :: |tables[t]| == size && |lay.chains[t]| == size)
    && (forall t, b | 0 <= t < |tables| && 0 <= b < size ::
          ListOk(mem, tables[t][b], lay.chains[t][b], lay.owner, In(t, b)))
  }

  ghost predicate WellShaped<K>(mem: Memory<K>, freeList: int, tables: seq<seq<int>>, lay: Layout, size: nat) {
    && ListOk(mem, freeList, lay.free, lay.owner, Free)
    && TablesOk(mem, tables, lay, size)
    && (forall x | 0 <= x < |lay.owner| && lay.owner[x].In? ::
          0 <= lay.owner[x].table < |tables| && 0 <= lay.owner[x].bucket < size)
  }

  // ---- List surgery ----

  function RemoveAt<T>(c: seq<T>, j: nat): seq<T>
    requires j < |c|
  {
    c[..j] + c[j + 1..]
  }

  /** A list survives any change to nodes it does not own. */
  lemma ListFrame<K>(mem: Memory<K>, mem': Memory<K>, p: int, c: seq<int>,
                     owner: seq<Owner>, owner': seq<Owner>, who: Owner)
    requires ListOk(mem, p, c, owner, who)
    requires |owner'| == |mem'| >= |mem|
    requires forall x | 0 <= x < |mem| && owner[x] == who :: mem'[x].next == mem[x].next
    requires forall x | 0 <= x < |mem'| :: owner'[x] == who <==> x < |mem| && owner[x] == who
    ensures ListOk(mem', p, c, owner', who)
  {
  }

  lemma ListPush<K>(mem: Memory<K>, p: int, c: seq<int>, owner: seq<Owner>, who: Owner, x: int, n: Node<K>)
    requires ListOk(mem, p, c, owner, who)
    requires 0 <= x < |mem| && owner[x] != who && n.next == p
    ensures ListOk(mem[x := n], x, [x] + c, owner[x := who], who)
  {
    var c' := [x] + c;
    NoDupIsDistinct(c);
    NoDupIsDistinct(c');
    forall i | 0 <= i < |c'|
      ensures mem[x := n][c'[i]].next == At(c', i + 1)
    {
      if i > 0 {
        assert c'[i] == c[i - 1];
      }
    }
  }

  lemma ListPop<K>(mem: Memory<K>, p: int, c: seq<int>, owner: seq<Owner>, who: Owner, to: Owner)
    requires ListOk(mem, p, c, owner, who) && c != [] && to != who
    ensures ListOk(mem, mem[p].next, c[1..], owner[p := to], who)
  {
    NoDupIsDistinct(c);
    NoDupIsDistinct(c[1..]);
    assert c == [p] + c[1..];
    assert forall i | 0 <= i < |c[1..]| :: c[1..][i] == c[i + 1];
  }

  lemma RemoveAtElements(c: seq<int>, j: nat)
    requires NoDup(c) && j < |c|
    ensures NoDup(RemoveAt(c, j))
    ensures forall x :: x in RemoveAt(c, j) <==> x in c && x != c[j]
  {
    var c' := RemoveAt(c, j);
    NoDupIsDistinct(c);
    NoDupIsDistinct(c');
    assert forall i | 0 <= i < |c'| :: c'[i] == if i < j then c[i] else c[i + 1];
    forall x | x in c && x != c[j]
      ensures x in c'
    {
      var i :| 0 <= i < |c| && c[i] == x;
      assert c'[if i < j then i else i - 1] == x;
    }
  }

  /** Unlinking the node at position `j > 0` by redirecting its predecessor. */
  lemma ListUnlink<K>(mem: Memory<K>, p: int, c: seq<int>, owner: seq<Owner>, who: Owner, j: nat, to: Owner)
    requires ListOk(mem, p, c, owner, who) && 0 < j < |c| && to != who
    ensures ListOk(mem[c[j - 1] := mem[c[j - 1]].(next := mem[c[j]].next)], p, RemoveAt(c, j), owner[c[j] := to], who)
  {
    var mem' := mem[c[j - 1] := mem[c[j - 1]].(next := mem[c[j]].next)];
    var c' := RemoveAt(c, j);
    forall i | 0 <= i < |c'|
      ensures 0 <= c'[i] < |mem'|
      ensures mem'[c'[i]].next == At(c', i + 1)
    {
      assert c'[i] == if i < j then c[i] else c[i + 1];
    }
    RemoveAtElements(c, j);
  }

  // ---- Layout transitions ----

  function Put<T>(rows: seq<seq<T>>, t: nat, b: nat, v: T): seq<seq<T>>
    requires t < |rows| && b < |rows[t]|
  {
    rows[t := rows[t][b := v]]
  }

  lemma PutSame<T>(rows: seq<seq<T>>, t: nat, b: nat)
    requires t < |rows| && b < |rows[t]|
    ensures Put(rows, t, b, rows[t][b]) == rows
  {
    assert rows[t][b := rows[t][b]] == rows[t];
  }

  lemma PutTwice<T>(rows: seq<seq<T>>, t: nat, b: nat, v: T, w: T)
    requires t < |rows| && b < |rows[t]|
    ensures Put(Put(rows, t, b, v), t, b, w) == Put(rows, t, b, w)
  {
    assert rows[t][b := v][b := w] == rows[t][b := w];
  }

  /** Node `x` becomes the head of chain `(t, b)`. */
  function Linked(lay: Layout, t: nat, b: nat, x: int): Layout
    requires t < |lay.chains| && b < |lay.chains[t]| && 0 <= x < |lay.owner|
  {
    Layout(lay.free, Put(lay.chains, t, b, [x] + lay.chains[t][b]), lay.owner[x := In(t, b)])
  }

  /** The node at position `j` of chain `(t, b)` is taken off it. */
  function Unlinked(lay: Layout, t: nat, b: nat, j: nat): Layout
    requires t < |lay.chains| && b < |lay.chains[t]| && j < |lay.chains[t][b]|
    requires 0 <= lay.chains[t][b][j] < |lay.owner|
  {
    var x := lay.chains[t][b][j];
    Layout(lay.free, Put(lay.chains, t, b, RemoveAt(lay.chains[t][b], j)), lay.owner[x := Loose])
  }

  function Released(lay: Layout, x: int): Layout
    requires 0 <= x < |lay.owner|
  {
    Layout([x] + lay.free, lay.chains, lay.owner[x := Free])
  }

  function Taken(lay: Layout): Layout
    requires lay.free != [] && 0 <= lay.free[0] < |lay.owner|
  {
    Layout(lay.free[1..], lay.chains, lay.owner[lay.free[0] := Loose])
  }

  lemma ShapeAfterTake<K>(mem: Memory<K>, freeList: int, tables: seq<seq<int>>, lay: Layout, size: nat)
    requires WellShaped(mem, freeList, tables, lay, size) && lay.free != []
    ensures WellShaped(mem, mem[freeList].next, tables, Taken(lay), size)
  {
    ListPop(mem, freeList, lay.free, lay.owner, Free, Loose);
    forall t, b | 0 <= t < |tables| && 0 <= b < size
      ensures ListOk(mem, tables[t][b], lay.chains[t][b], Taken(lay).owner, In(t, b))
    {
      ListFrame(mem, mem, tables[t][b], lay.chains[t][b], lay.owner, Taken(lay).owner, In(t, b));
    }
  }

  lemma ShapeAfterRelease<K>(mem: Memory<K>, freeList: int, tables: seq<seq<int>>, lay: Layout, size: nat, x: int)
    requires WellShaped(mem, freeList, tables, lay, size) && 0 <= x < |mem| && lay.owner[x] == Loose
    ensures WellShaped(mem[x := mem[x].(next := freeList)], x, tables, Released(lay, x), size)
  {
    var mem' := mem[x := mem[x].(next := freeList)];
    ListPush(mem, freeList, lay.free, lay.owner, Free, x, mem[x].(next := freeList));
    forall t, b | 0 <= t < |tables| && 0 <= b < size
      ensures ListOk(mem', tables[t][b], lay.chains[t][b], Released(lay, x).owner, In(t, b))
    {
      ListFrame(mem, mem', tables[t][b], lay.chains[t][b], lay.owner, Released(lay, x).owner, In(t, b));
    }
  }

  lemma ShapeAfterLink<K>(mem: Memory<K>, freeList: int, tables: seq<seq<int>>, lay: Layout, size: nat,
                          t: nat, b: nat, x: int, n: Node<K>)
    requires WellShaped(mem, freeList, tables, lay, size) && 0 <= x < |mem| && lay.owner[x] == Loose
    requires t < |tables| && b < size && n.next == tables[t][b]
    ensures WellShaped(mem[x := n], freeList, Put(tables, t, b, x), Linked(lay, t, b, x), size)
  {
    var lay' := Linked(lay, t, b, x);
    ListFrame(mem, mem[x := n], freeList, lay.free, lay.owner, lay'.owner, Free);
    forall t', b' | 0 <= t' < |tables| && 0 <= b' < size
      ensures ListOk(mem[x := n], Put(tables, t, b, x)[t'][b'], lay'.chains[t'][b'], lay'.owner, In(t', b'))
    {
      if t' == t && b' == b {
        ListPush(mem, tables[t][b], lay.chains[t][b], lay.owner, In(t, b), x, n);
      } else {
        ListFrame(mem, mem[x := n], tables[t'][b'], lay.chains[t'][b'], lay.owner, lay'.owner, In(t', b'));
      }
    }
  }

  lemma ShapeAfterUnlinkFirst<K>(mem: Memory<K>, freeList: int, tables: seq<seq<int>>, lay: Layout, size: nat,
                                 t: nat, b: nat)
    requires WellShaped(mem, freeList, tables, lay, size)
    requires t < |tables| && b < size && lay.chains[t][b] != []
    ensures WellShaped(mem, freeList, Put(tables, t, b, mem[tables[t][b]].next), Unlinked(lay, t, b, 0), size)
  {
    var lay' := Unlinked(lay, t, b, 0);
    ListFrame(mem, mem, freeList, lay.free, lay.owner, lay'.owner, Free);
    forall t', b' | 0 <= t' < |tables| && 0 <= b' < size
      ensures ListOk(mem, Put(tables, t, b, mem[tables[t][b]].next)[t'][b'], lay'.chains[t'][b'], lay'.owner, In(t', b'))
    {
      if t' == t && b' == b {
        ListPop(mem, tables[t][b], lay.chains[t][b], lay.owner, In(t, b), Loose);
        assert RemoveAt(lay.chains[t][b], 0) == lay.chains[t][b][1..];
      } else {
        ListFrame(mem, mem, tables[t'][b'], lay.chains[t'][b'], lay.owner, lay'.owner, In(t', b'));
      }
    }
  }

  lemma ShapeAfterUnlinkLater<K>(mem: Memory<K>, freeList: int, tables: seq<seq<int>>, lay: Layout, size: nat,
                                 t: nat, b: nat, j: nat)
    requires WellShaped(mem, freeList, tables, lay, size)
    requires t < |tables| && b < size && 0 < j < |lay.chains[t][b]|
    ensures var c := lay.chains[t][b];
            WellShaped(mem[c[j - 1] := mem[c[j - 1]].(next := mem[c[j]].next)], freeList, tables,
                       Unlinked(lay, t, b, j), size)
  {
    var c := lay.chains[t][b];
    var mem' := mem[c[j - 1] := mem[c[j - 1]].(next := mem[c[j]].next)];
    var lay' := Unlinked(lay, t, b, j);
    ListFrame(mem, mem', freeList, lay.free, lay.owner, lay'.owner, Free);
    forall t', b' | 0 <= t' < |tables| && 0 <= b' < size
      ensures ListOk(mem', tables[t'][b'], lay'.chains[t'][b'], lay'.owner, In(t', b'))
    {
      if t' == t && b' == b {
        ListUnlink(mem, tables[t][b], c, lay.owner, In(t, b), j, Loose);
      } else {
        ListFrame(mem, mem', tables[t'][b'], lay.chains[t'][b'], lay.owner, lay'.owner, In(t', b'));
      }
    }
  }

  // ---- Growing the pool by a block ----

  /** What the chaining loop of `pool_alloc` leaves in a new block: item 0 is handed out and items
      1 to 255 are threaded in order. */
  ghost predicate ThreadedBlock<K>(mem: Memory<K>, base: nat) {
    && |mem| == base + POOL_BLOCK_SIZE
    && (forall x | base < x < base + POOL_BLOCK_SIZE - 1 :: mem[x].next == x + 1)
    && mem[base + POOL_BLOCK_SIZE - 1].next == NULL
  }

  function Grown(lay: Layout, base: nat): Layout {
    Layout(seq(POOL_BLOCK_SIZE - 1, i => base + 1 + i), lay.chains,
           lay.owner + [Loose] + seq(POOL_BLOCK_SIZE - 1, _ => Free))
  }

  lemma ShapeAfterGrow<K>(mem: Memory<K>, mem': Memory<K>, tables: seq<seq<int>>, lay: Layout, size: nat)
    requires WellShaped(mem, NULL, tables, lay, size)
    requires mem <= mem' && ThreadedBlock(mem', |mem|)
    ensures lay.free == []
    ensures WellShaped(mem', |mem| + 1, tables, Grown(lay, |mem|), size)
  {
    var lay' := Grown(lay, |mem|);
    forall x | 0 <= x < |mem|
      ensures lay.owner[x] != Free && lay'.owner[x] == lay.owner[x]
    {
      assert lay.owner[x] == Free ==> x in lay.free;
    }
    forall t, b | 0 <= t < |tables| && 0 <= b < size
      ensures ListOk(mem', tables[t][b], lay.chains[t][b], lay'.owner, In(t, b))
    {
      ListFrame(mem, mem', tables[t][b], lay.chains[t][b], lay.owner, lay'.owner, In(t, b));
    }
    forall x
      ensures x in lay'.free <==> 0 <= x < |mem'| && lay'.owner[x] == Free
    {
      if |mem| < x < |mem'| {
        assert lay'.free[x - |mem| - 1] == x;
      }
    }
  }

  // ---- Iteration order ----

  /** The nodes of a table in the order in which `hash_next_item` reaches them. */
  function Flatten(rows: seq<seq<int>>): seq<int> {
    if rows == [] then [] else rows[0] + Flatten(rows[1..])
  }

  lemma {:induction false} FlattenSplit(rows: seq<seq<int>>, b: nat)
    requires b <= |rows|
    ensures Flatten(rows) == Flatten(rows[..b]) + Flatten(rows[b..])
  {
    if b == 0 {
      assert rows[b..] == rows;
    } else {
      FlattenSplit(rows[1..], b - 1);
      assert rows[..b][1..] == rows[1..][..b - 1];
      assert rows[b..] == rows[1..][b - 1..];
    }
  }

  lemma FlattenAround(rows: seq<seq<int>>, b: nat)
    requires b < |rows|
    ensures Flatten(rows) == Flatten(rows[..b]) + rows[b] + Flatten(rows[b + 1..])
  {
    FlattenSplit(rows, b);
    assert rows[b..][1..] == rows[b + 1..];
  }

  lemma FlattenPut(rows: seq<seq<int>>, b: nat, c: seq<int>)
    requires b < |rows|
    ensures Flatten(rows[b := c]) == Flatten(rows[..b]) + c + Flatten(rows[b + 1..])
  {
    FlattenAround(rows[b := c], b);
    assert rows[b := c][..b] == rows[..b] && rows[b := c][b + 1..] == rows[b + 1..];
  }

  lemma {:induction false} FlattenMember(rows: seq<seq<int>>, x: int)
    ensures x in Flatten(rows) <==> exists b :: 0 <= b < |rows| && x in rows[b]
  {
    if rows == [] {
    } else {
      FlattenMember(rows[1..], x);
      if x in Flatten(rows[1..]) {
        var b :| 0 <= b < |rows[1..]| && x in rows[1..][b];
        assert x in rows[b + 1];
      }
      if b :| 0 < b < |rows| && x in rows[b] {
        assert x in rows[1..][b - 1];
      }
    }
  }

  lemma {:induction false} FlattenNoDup(rows: seq<seq<int>>, rank: int -> int, low: int)
    requires forall b | 0 <= b < |rows| :: NoDup(rows[b])
    requires forall b, x | 0 <= b < |rows| && x in rows[b] :: rank(x) == low + b
    ensures NoDup(Flatten(rows))
  {
    if rows == [] {
    } else {
      FlattenNoDup(rows[1..], rank, low + 1);
      NoDupIsDistinct(rows[0]);
      NoDupIsDistinct(Flatten(rows[1..]));
      NoDupIsDistinct(Flatten(rows));
      forall x | x in Flatten(rows[1..])
        ensures x !in rows[0]
      {
        FlattenMember(rows[1..], x);
        var b :| 0 <= b < |rows[1..]| && x in rows[1..][b];
        assert x in rows[b + 1] && rank(x) == low + b + 1;
      }
      assert forall j | 0 <= j < |Flatten(rows[1..])| :: Flatten(rows[1..])[j] in Flatten(rows[1..]);
    }
  }

  /** A table never yields a node twice, and yields exactly the nodes it owns. */
  lemma ItemsOfTable<K>(mem: Memory<K>, tables: seq<seq<int>>, lay: Layout, size: nat, t: nat)
    requires TablesOk(mem, tables, lay, size) && t < |tables|
    requires forall x | 0 <= x < |lay.owner| && lay.owner[x].In? && lay.owner[x].table == t ::
               0 <= lay.owner[x].bucket < size
    ensures NoDup(Flatten(lay.chains[t]))
    ensures forall x :: x in Flatten(lay.chains[t]) <==>
              0 <= x < |lay.owner| && lay.owner[x].In? && lay.owner[x].table == t
  {
    var rank := (x: int) => if 0 <= x < |lay.owner| && lay.owner[x].In? then lay.owner[x].bucket else -1;
    FlattenNoDup(lay.chains[t], rank, 0);
    forall x
      ensures x in Flatten(lay.chains[t]) <==> 0 <= x < |lay.owner| && lay.owner[x].In? && lay.owner[x].table == t
    {
      FlattenMember(lay.chains[t], x);
      if x in Flatten(lay.chains[t]) {
        var b :| 0 <= b < size && x in lay.chains[t][b];
        assert ListOk(mem, tables[t][b], lay.chains[t][b], lay.owner, In(t, b));
      }
      if 0 <= x < |lay.owner| && lay.owner[x].In? && lay.owner[x].table == t {
        assert x in lay.chains[t][lay.owner[x].bucket];
      }
    }
  }

  // ---- Counting nodes ----

  function Live(chains: seq<seq<seq<int>>>): nat {
    if chains == [] then 0 else |Flatten(chains[0])| + Live(chains[1..])
  }

  lemma {:induction false} LiveUpdate(chains: seq<seq<seq<int>>>, t: nat, row: seq<seq<int>>)
    requires t < |chains|
    ensures Live(chains[t := row]) == Live(chains) - |Flatten(chains[t])| + |Flatten(row)|
  {
    if t == 0 {
      assert chains[0 := row][1..] == chains[1..];
    } else {
      LiveUpdate(chains[1..], t - 1, row);
      assert chains[t := row][1..] == chains[1..][t - 1 := row];
    }
  }

  lemma LivePut(chains: seq<seq<seq<int>>>, t: nat, b: nat, c: seq<int>)
    requires t < |chains| && b < |chains[t]|
    ensures Live(Put(chains, t, b, c)) == Live(chains) - |chains[t][b]| + |c|
  {
    LiveUpdate(chains, t, chains[t][b := c]);
    FlattenPut(chains[t], b, c);
    FlattenAround(chains[t], b);
  }
}
