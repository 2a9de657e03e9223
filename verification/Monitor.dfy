/** The globals of the program over the real structures: flows and screen lines in two chained hashes
    that share one node pool, flow records in their own recycled pool, and the grand totals.  The packet
    path and the rotation are those of src/entry/iftop.c, the line table is that of src/ui/ui.c. */
module Monitor {
  import opened Prelude
  import opened Packets
  import opened Ledger
  import opened PoolTable
  import opened AddrHash
  import opened HistPool
  import opened RecordTable
  import opened Rotation
  import opened Analysis

  /** `history` and `screen_hash` share one node pool. */
  const HISTORY := 0
  const SCREEN := 1
  const TABLES := 2

  /** The parts of the state whose invariants are sealed. */
  datatype Part = Nodes | Flows | Screen

  lemma AccountedFlows(s: State, v: Verdict)
    requires s.Sized()
    ensures var h := RecordOf(s, v.key);
            && Account(s, v).flows ==
               s.flows[v.key := h][v.key := h.(lastWrite := s.pos).Add(v.sent, s.pos, v.bytes)]
            && Account(s, v).totals == s.totals.Add(v.outgoing, s.pos, v.bytes)
            && Account(s, v).pos == s.pos && Account(s, v).len == s.len
  {
  }

  /** The invariant of the node pool, sealed. */
  ghost predicate NodesFit(heap: Heap<AddrPair>)
    reads heap
  {
    && |heap.lay.chains| == TABLES
    && forall g | Opened(Nodes, g) :: heap.Valid({}) && |heap.tables| == TABLES
  }

  /** Two empty tables over an empty pool. */
  method EmptyTables(size: nat, hash: AddrPair -> nat) returns (heap: Heap<AddrPair>)
    requires forall k :: hash(k) < size
    ensures fresh(heap) && NodesFit(heap) && heap.Items(HISTORY) == heap.Items(SCREEN) == []
  {
    heap := new Heap(size, hash, TABLES);
  }

  class Monitor {
    const heap: Heap<AddrPair>
    const pool: Pool
    var totals: Hist
    var pos: int
    var len: int

    /** The memory of the screen lines. */
    var lineMem: seq<RawLine>

    /** The flows as the ledger sees them, their nodes, and these in iteration order. */
    ghost var flows: map<AddrPair, Hist>
    ghost var nodeOf: map<AddrPair, int>
    ghost var items: seq<int>

    /** The same for the screen lines. */
    ghost var lines: Lines
    ghost var lineOf: map<AddrPair, int>
    ghost var shown: seq<int>

    ghost predicate NodesOk()
      reads heap
    {
      NodesFit(heap)
    }

    /** The flow table and the record pool fit together and hold `flows`. */
    ghost predicate FlowsFit()
      reads this`nodeOf, this`flows, this`items, heap, pool
    {
      && NodesOk() && items == heap.Items(HISTORY)
      && pool.Valid()
      && Holds(heap.mem, items, pool.recs, pool.free, nodeOf, flows)
    }

    /** The line table holds `lines`; every line in memory is in it. */
    ghost predicate ScreenFits()
      reads this`lineOf, this`lines, this`shown, this`lineMem, heap
    {
      && NodesOk() && shown == heap.Items(SCREEN)
      && Holds(heap.mem, shown, lineMem, [], lineOf, lines)
    }

    /** `FlowsFit` and `ScreenFits`, sealed. */
    ghost predicate FlowsOk()
      reads this`nodeOf, this`flows, this`items, heap, pool
    {
      NodesOk() && SizedFlows(flows) && forall g | Opened(Flows, g) :: FlowsFit()
    }

    ghost predicate ScreenOk()
      reads this`lineOf, this`lines, this`shown, this`lineMem, heap
    {
      NodesOk() && SizedLines(lines) && forall g | Opened(Screen, g) :: ScreenFits()
    }

    ghost predicate Stored()
      reads this`nodeOf, this`flows, this`items, this`lineOf, this`lines, this`shown, this`lineMem, heap, pool
    {
      FlowsOk() && ScreenOk()
    }

    ghost predicate Valid()
      reads this, heap, pool
    {
      Stored() && totals.Sized() && 0 <= pos < HISTORY_LENGTH
    }

    ghost function Abs(): (s: State)
      reads this, heap, pool
      requires Valid()
      ensures s.Sized()
    {
      State(flows, totals, pos, len)
    }

    /** `init_history` and the initial values of the globals */
    constructor (size: nat, hash: AddrPair -> nat)
      requires forall k :: hash(k) < size
      ensures Valid() && Abs() == Initial() && lines == map[] && fresh(heap) && fresh(pool)
    {
      var tables := EmptyTables(size, hash);
      heap := tables;
      pool := new Pool();
      totals, pos, len, lineMem := ZeroHist(), 0, 1, [];
      nodeOf, flows, items := map[], map[], [];
      lineOf, lines, shown := map[], map[], [];
      new;
      HoldsNothing<AddrPair, Hist>(heap.mem);
      HoldsNothing<AddrPair, RawLine>(heap.mem);
    }

    // ---- Nodes ----

    lemma ItemsAreNodes(t: nat)
      requires NodesOk() && t < TABLES
      ensures NoDup(heap.Items(t)) && forall x | x in heap.Items(t) :: 0 <= x < |heap.mem|
    {
      assert Opened(Nodes, 0);
      ItemFacts(heap, t);
    }

    /** `addr_hash_insert` on one of the tables: the other one does not notice. */
    method Attach(t: nat, key: AddrPair, h: int) returns (x: int)
      requires NodesOk() && t < TABLES
      modifies heap
      ensures NodesOk() && Added(old(heap.Items(t)), x, heap.Items(t))
      ensures 0 <= x < |heap.mem| && heap.mem[x].key == key && heap.mem[x].record == h
      ensures heap.Items(1 - t) == old(heap.Items(1 - t))
      ensures Untouched(old(heap.mem), heap.mem, old(heap.Items(t)))
      ensures Untouched(old(heap.mem), heap.mem, old(heap.Items(1 - t)))
    {
      assert Opened(Nodes, 0);
      ItemFacts(heap, 1 - t);
      x := heap.Insert(t, key, h);
    }

    /** `addr_hash_delete_node` on the flow table. */
    method Detach(x: int)
      requires NodesOk() && x in heap.Items(HISTORY)
      modifies heap
      ensures NodesOk() && NoDup(old(heap.Items(HISTORY)))
      ensures RemovedFrom(old(heap.Items(HISTORY)), x, heap.Items(HISTORY))
      ensures heap.Items(SCREEN) == old(heap.Items(SCREEN))
      ensures SameContents(old(heap.mem), heap.mem)
    {
      assert Opened(Nodes, 0);
      ItemFacts(heap, HISTORY);
      heap.DeleteNode(HISTORY, x);
    }

    /** `addr_hash_delete_all_free` on the line table. */
    method EmptyScreen()
      requires NodesOk()
      modifies heap
      ensures NodesOk() && heap.Items(SCREEN) == [] && heap.Items(HISTORY) == old(heap.Items(HISTORY))
      ensures SameContents(old(heap.mem), heap.mem)
    {
      assert Opened(Nodes, 0);
      var freed := heap.DeleteAllFree(SCREEN);
    }

    // ---- Flows ----

    /** A new node of the flow table leaves the screen as it is. */
    method AttachFlow(key: AddrPair, h: int) returns (x: int)
      requires ScreenOk()
      modifies heap
      ensures ScreenOk() && Added(old(heap.Items(HISTORY)), x, heap.Items(HISTORY))
      ensures 0 <= x < |heap.mem| && heap.mem[x].key == key && heap.mem[x].record == h
      ensures Untouched(old(heap.mem), heap.mem, old(heap.Items(HISTORY)))
    {
      assert Opened(Screen, 0);
      ghost var mem := heap.mem;
      x := Attach(HISTORY, key, h);
      HoldsFrame(mem, heap.mem, shown, lineMem, [], lineOf, lines);
    }

    /** So does a node that is deleted. */
    method DetachFlow(x: int)
      requires ScreenOk() && x in heap.Items(HISTORY)
      modifies heap
      ensures ScreenOk() && NoDup(old(heap.Items(HISTORY)))
      ensures RemovedFrom(old(heap.Items(HISTORY)), x, heap.Items(HISTORY))
      ensures SameContents(old(heap.mem), heap.mem)
    {
      assert Opened(Screen, 0);
      ghost var mem := heap.mem;
      Detach(x);
      HoldsRelinked(mem, heap.mem, shown, lineMem, [], lineOf, lines);
    }

    /** A new zeroed record under a new key. */
    method AddFlow(key: AddrPair) returns (x: int)
      requires Stored() && key !in flows
      modifies this`nodeOf, this`flows, this`items, heap, pool
      ensures Stored() && x in items && 0 <= x < |heap.mem| && heap.mem[x].key == key
      ensures flows == old(flows)[key := ZeroHist()]
    {
      assert Opened(Flows, 0);
      ghost var mem, recs, free := heap.mem, pool.recs, pool.free;
      var h := pool.Create();
      x := AttachFlow(key, h);
      HoldsAfterAdd(mem, items, recs, free, nodeOf, flows, heap.mem, heap.Items(HISTORY), pool.recs, pool.free, x);
      nodeOf := nodeOf[key := x];
      flows := flows[key := ZeroHist()];
      items := heap.Items(HISTORY);
    }

    /** An in-place update of the record of node `x`. */
    method SetRecord(x: int, v: Hist)
      requires FlowsOk() && x in items && 0 <= x < |heap.mem| && v.Sized()
      modifies this`flows, pool
      ensures FlowsOk() && flows == old(flows)[heap.mem[x].key := v]
    {
      assert Opened(Flows, 0);
      HoldsRecord(heap.mem, items, pool.recs, pool.free, nodeOf, flows, x);
      HoldsAfterSet(heap.mem, items, pool.recs, pool.free, nodeOf, flows, x, v);
      pool.Store(heap.mem[x].record, v);
      flows := flows[heap.mem[x].key := v];
    }

    /** The flow of node `x` is forgotten, its node and record being gone. */
    ghost method ForgetFlow(x: int, mem: Memory<AddrPair>, recs: seq<Hist>, free: seq<int>)
      requires NodesOk() && pool.Valid() && SizedFlows(flows)
      requires Holds(mem, items, recs, free, nodeOf, flows) && x in items && NoDup(items) && 0 <= x < |mem|
      requires SameContents(mem, heap.mem) && RemovedFrom(items, x, heap.Items(HISTORY))
      requires KeepsInUse(recs, free, pool.recs, pool.free, mem[x].record)
      requires |pool.recs| - |pool.free| == |recs| - |free| - 1
      modifies this`nodeOf, this`flows, this`items
      ensures FlowsOk() && flows == old(flows) - {mem[x].key} && items == heap.Items(HISTORY)
    {
      HoldsAfterDrop(mem, items, recs, free, nodeOf, flows, heap.mem, heap.Items(HISTORY), pool.recs, pool.free, x);
      nodeOf := nodeOf - {mem[x].key};
      flows := flows - {mem[x].key};
      items := heap.Items(HISTORY);
    }

    /** Deletes the node and gives its record back. */
    method DropFlow(x: int)
      requires Stored() && x in items && 0 <= x < |heap.mem|
      modifies this`nodeOf, this`flows, this`items, heap, pool
      ensures Stored() && flows == old(flows) - {old(heap.mem)[x].key}
      ensures RemovedFrom(old(items), x, items)
      ensures SameContents(old(heap.mem), heap.mem)
    {
      assert Opened(Flows, 0);
      ghost var mem, recs, free := heap.mem, pool.recs, pool.free;
      HoldsRecord(mem, items, recs, free, nodeOf, flows, x);
      var h := heap.mem[x].record;
      DetachFlow(x);
      pool.Free(h);
      ForgetFlow(x, mem, recs, free);
    }

    /** What the seals hide about the flow table. */
    lemma FlowTableFacts()
      requires FlowsOk()
      ensures Indexed(heap.mem, items, nodeOf) && flows.Keys == nodeOf.Keys
      ensures NoDup(items)
    {
      assert Opened(Flows, 0);
      HoldsFacts(heap.mem, items, pool.recs, pool.free, nodeOf, flows);
      ItemsAreNodes(HISTORY);
    }

    /** `addr_hash_find` on the flow table. */
    method FindFlow(key: AddrPair) returns (x: int)
      requires FlowsOk()
      ensures x == NULL ==> key !in flows
      ensures x != NULL ==> x in items && 0 <= x < |heap.mem| && heap.mem[x].key == key
    {
      assert Opened(Flows, 0) && Opened(Nodes, 0);
      x := heap.Find(HISTORY, key);
      FlowTableFacts();
    }

    /** `hash_next_item` on the flow table. */
    method NextFlow(node: int) returns (next: int)
      requires FlowsOk() && (node == NULL || node in items)
      ensures node == NULL ==> next == At(items, 0)
      ensures node != NULL ==> Follows(items, node, next)
    {
      assert Opened(Flows, 0) && Opened(Nodes, 0);
      next := heap.NextItem(HISTORY, node);
    }

    /** The record of a node. */
    method Load(x: int) returns (h: Hist)
      requires FlowsOk() && x in items && 0 <= x < |heap.mem|
      ensures heap.mem[x].key in flows && h == flows[heap.mem[x].key]
    {
      assert Opened(Flows, 0);
      HoldsRecord(heap.mem, items, pool.recs, pool.free, nodeOf, flows, x);
      h := pool.recs[heap.mem[x].record];
    }

    /** The node of a flow, created with a zeroed record if there is none. */
    method FindOrAdd(key: AddrPair) returns (x: int, h: Hist)
      requires Stored()
      modifies this`nodeOf, this`flows, this`items, heap, pool
      ensures Stored() && x in items && 0 <= x < |heap.mem| && heap.mem[x].key == key
      ensures h == (if key in old(flows) then old(flows)[key] else ZeroHist())
      ensures flows == old(flows)[key := h]
    {
      x := FindFlow(key);
      if x == NULL {
        x := AddFlow(key);
      }
      h := Load(x);
    }

    /** The accounting half of `handle_ip_packet`. */
    method Record(v: Verdict)
      requires Valid()
      modifies this`nodeOf, this`flows, this`items, this`totals, heap, pool
      ensures Valid() && Abs() == Account(old(Abs()), v)
    {
      AccountedFlows(Abs(), v);
      var x, h := FindOrAdd(v.key);
      SetRecord(x, h.(lastWrite := pos).Add(v.sent, pos, v.bytes));
      totals := totals.Add(v.outgoing, pos, v.bytes);
    }

    /** `handle_ip_packet` does to the real structures what one ledger step does to the ledger. */
    method HandlePacket(s: Settings, hw: HwDir, p: Packet)
      requires Valid()
      modifies this`nodeOf, this`flows, this`items, this`totals, heap, pool
      ensures Valid() && Abs() == Step(old(Abs()), Arrival(s, hw, p))
    {
      var c := Classify(s, hw, p);
      if c.Some? {
        Record(c.value);
      }
    }

    // ---- Rotation ----

    /** The body of the rotation loop for one node. */
    method RotateFlow(x: int)
      requires Stored() && 0 <= pos < HISTORY_LENGTH && x in items && 0 <= x < |heap.mem|
      requires heap.mem[x].key in flows
      modifies this`nodeOf, this`flows, this`items, heap, pool
      ensures Stored() && SameContents(old(heap.mem), heap.mem)
      ensures var k := old(heap.mem)[x].key;
              var h := old(flows)[k];
              if h.lastWrite == pos
              then flows == old(flows) - {k} && RemovedFrom(old(items), x, items)
              else flows == old(flows)[k := h.ClearSlot(pos)] && items == old(items)
    {
      var h := Load(x);
      if h.lastWrite == pos {
        DropFlow(x);
      } else {
        SetRecord(x, h.ClearSlot(pos));
      }
    }

    /** Half way through the rotation loop, as the loop sees it. */
    ghost predicate Rotating(order: seq<int>, i: nat, kept: seq<int>, mem: Memory<AddrPair>,
                             index: map<AddrPair, int>, was: map<AddrPair, Hist>)
      reads this, heap, pool
    {
      && Stored() && SameContents(mem, heap.mem)
      && Halfway(order, i, kept, mem, index, was, pos, items, flows)
    }

    lemma RotatingReady(order: seq<int>, i: nat, kept: seq<int>, mem: Memory<AddrPair>,
                        index: map<AddrPair, int>, was: map<AddrPair, Hist>)
      requires Rotating(order, i, kept, mem, index, was) && i < |order|
      ensures order[i] in items && 0 <= order[i] < |mem| <= |heap.mem| && NoDup(items)
      ensures heap.mem[order[i]].key == mem[order[i]].key && mem[order[i]].key in flows
      ensures 0 <= pos < HISTORY_LENGTH
    {
      assert Opened(order, 0);
      FlowTableFacts();
      HalfwayReady(order, i, kept, mem, index, was, pos, items, flows);
    }

    /** One turn of the loop of `history_rotate`: the successor is fetched before the node may be
        freed. */
    method RotateStep(node: int, ghost order: seq<int>, ghost i: nat, ghost kept: seq<int>,
                      ghost mem: Memory<AddrPair>, ghost index: map<AddrPair, int>, ghost was: map<AddrPair, Hist>)
      returns (next: int, ghost kept': seq<int>)
      requires Rotating(order, i, kept, mem, index, was) && i < |order| && node == order[i]
      modifies this`nodeOf, this`flows, this`items, heap, pool
      ensures next == At(order, i + 1) && Rotating(order, i + 1, kept', mem, index, was)
    {
      RotatingReady(order, i, kept, mem, index, was);
      ghost var k := mem[node].key;
      ghost var itemsBefore, flowsBefore, memBefore := items, flows, heap.mem;
      next := NextFlow(node);
      RotateFlow(node);
      SameContentsTwice(mem, memBefore, heap.mem);
      kept' := if flowsBefore[k].lastWrite == pos then kept else kept + [node];
      HalfwayStep(order, i, kept, mem, index, was, pos, itemsBefore, flowsBefore, items, flows, next, k);
    }

    /** The loop of `history_rotate`.  Every node of the table is visited exactly once, `visited`
        being the order. */
    method RotateFlows() returns (ghost visited: seq<int>)
      requires Stored() && 0 <= pos < HISTORY_LENGTH
      modifies this`nodeOf, this`flows, this`items, heap, pool
      ensures Stored() && visited == old(items)
      ensures flows == RotatedFlows(old(flows), old(flows).Keys, pos)
    {
      ghost var order, mem, index, was := items, heap.mem, nodeOf, flows;
      ghost var i, kept := 0, [];
      visited := [];
      FlowTableFacts();
      HalfwayStart(order, mem, index, was, pos);
      var node := NextFlow(NULL);
      while node != NULL
        invariant Rotating(order, i, kept, mem, index, was)
        invariant i <= |order| && node == At(order, i) && visited == order[..i]
        decreases |order| - i
      {
        visited := visited + [node];
        node, kept := RotateStep(node, order, i, kept, mem, index, was);
        i := i + 1;
      }
      HalfwayEnd(order, i, kept, mem, index, was, pos, items, flows);
    }

    /** `history_rotate` is one ledger rotation. */
    method HistoryRotate()
      requires Valid()
      modifies this`nodeOf, this`flows, this`items, this`totals, this`pos, this`len, heap, pool
      ensures Valid() && Abs() == Rotated(old(Abs()))
    {
      RotatedCompletely(Abs());
      pos := (pos + 1) % HISTORY_LENGTH;
      ghost var visited := RotateFlows();
      totals := totals.ClearSlot(pos);
      if len < HISTORY_LENGTH {
        len := len + 1;
      }
    }

    /** A packet or a rotation. */
    method Handle(e: Event)
      requires Valid()
      modifies this`nodeOf, this`flows, this`items, this`totals, this`pos, this`len, heap, pool
      ensures Valid() && Abs() == Step(old(Abs()), e)
    {
      match e {
        case Arrival(s, hw, p) => HandlePacket(s, hw, p);
        case Rotation => HistoryRotate();
      }
    }

    // ---- Screen lines ----

    /** A new node of the line table leaves the flows as they are. */
    method AttachLine(key: AddrPair, h: int) returns (x: int)
      requires FlowsOk()
      modifies heap
      ensures FlowsOk() && Added(old(heap.Items(SCREEN)), x, heap.Items(SCREEN))
      ensures 0 <= x < |heap.mem| && heap.mem[x].key == key && heap.mem[x].record == h
      ensures Untouched(old(heap.mem), heap.mem, old(heap.Items(SCREEN)))
    {
      assert Opened(Flows, 0);
      ghost var mem := heap.mem;
      x := Attach(SCREEN, key, h);
      HoldsFrame(mem, heap.mem, items, pool.recs, pool.free, nodeOf, flows);
    }

    /** A new line from `xcalloc`. */
    method AddLine(key: AddrPair) returns (x: int)
      requires Stored() && key !in lines
      modifies this`lineOf, this`lines, this`shown, this`lineMem, heap
      ensures Stored() && x in shown && 0 <= x < |heap.mem| && heap.mem[x].key == key
      ensures lines == old(lines)[key := ZERO_LINE]
    {
      assert Opened(Screen, 0);
      ghost var mem, was := heap.mem, lineMem;
      x := AttachLine(key, |lineMem|);
      lineMem := lineMem + [ZERO_LINE];
      HoldsAfterAdd(mem, shown, was, [], lineOf, lines, heap.mem, heap.Items(SCREEN), lineMem, [], x);
      lineOf := lineOf[key := x];
      lines := lines[key := ZERO_LINE];
      shown := heap.Items(SCREEN);
    }

    /** An in-place update of the line of node `x`. */
    method SetLine(x: int, v: RawLine)
      requires ScreenOk() && x in shown && 0 <= x < |heap.mem| && v.Sized()
      modifies this`lines, this`lineMem
      ensures ScreenOk() && lines == old(lines)[heap.mem[x].key := v]
    {
      assert Opened(Screen, 0);
      HoldsRecord(heap.mem, shown, lineMem, [], lineOf, lines, x);
      HoldsAfterSet(heap.mem, shown, lineMem, [], lineOf, lines, x, v);
      lineMem := lineMem[heap.mem[x].record := v];
      lines := lines[heap.mem[x].key := v];
    }

    lemma ScreenTableFacts()
      requires ScreenOk()
      ensures Indexed(heap.mem, shown, lineOf) && lines.Keys == lineOf.Keys
      ensures NoDup(shown)
    {
      assert Opened(Screen, 0);
      HoldsFacts(heap.mem, shown, lineMem, [], lineOf, lines);
      ItemsAreNodes(SCREEN);
    }

    /** `addr_hash_find` on the line table. */
    method FindLine(key: AddrPair) returns (x: int)
      requires ScreenOk()
      ensures x == NULL ==> key !in lines
      ensures x != NULL ==> x in shown && 0 <= x < |heap.mem| && heap.mem[x].key == key
    {
      assert Opened(Screen, 0) && Opened(Nodes, 0);
      x := heap.Find(SCREEN, key);
      ScreenTableFacts();
    }

    /** `hash_next_item` on the line table. */
    method NextLine(node: int) returns (next: int)
      requires ScreenOk() && (node == NULL || node in shown)
      ensures node == NULL ==> next == At(shown, 0)
      ensures node != NULL ==> Follows(shown, node, next)
    {
      assert Opened(Screen, 0) && Opened(Nodes, 0);
      next := heap.NextItem(SCREEN, node);
    }

    /** The line of a node. */
    method LoadLine(x: int) returns (l: RawLine)
      requires ScreenOk() && x in shown && 0 <= x < |heap.mem|
      ensures heap.mem[x].key in lines && l == lines[heap.mem[x].key]
    {
      assert Opened(Screen, 0);
      HoldsRecord(heap.mem, shown, lineMem, [], lineOf, lines, x);
      l := lineMem[heap.mem[x].record];
    }

    /** The start of `analyse_data` when the order is not frozen: all lines are freed. */
    method DeleteLines()
      requires Stored()
      modifies this`lineOf, this`lines, this`shown, this`lineMem, heap
      ensures Stored() && lines == map[]
    {
      assert Opened(Flows, 0);
      ghost var mem := heap.mem;
      EmptyScreen();
      HoldsRelinked(mem, heap.mem, items, pool.recs, pool.free, nodeOf, flows);
      HoldsNothing<AddrPair, RawLine>(heap.mem);
      lineMem := [];
      lineOf, lines, shown := map[], map[], [];
    }

    /** A tour of the line table meets every line once. */
    lemma StartLines() returns (order: seq<AddrPair>)
      requires ScreenOk()
      ensures Tour(order, shown, lineOf) && ListsAll(order, lines.Keys)
    {
      ScreenTableFacts();
      order := StartTour(heap.mem, shown, lineOf);
    }

    lemma LineAt(order: seq<AddrPair>, i: nat)
      requires ScreenOk() && Tour(order, shown, lineOf) && i < |shown|
      ensures shown[i] in shown && 0 <= shown[i] < |heap.mem| && heap.mem[shown[i]].key == order[i]
    {
      ScreenTableFacts();
      TourKey(heap.mem, shown, lineOf, order, i);
    }

    /** A tour of the flow table meets every flow once. */
    lemma StartFlows() returns (order: seq<AddrPair>)
      requires FlowsOk()
      ensures Tour(order, items, nodeOf) && VisitsAll(order, flows)
    {
      FlowTableFacts();
      order := StartTour(heap.mem, items, nodeOf);
    }

    lemma FlowAt(order: seq<AddrPair>, i: nat)
      requires FlowsOk() && Tour(order, items, nodeOf) && i < |items|
      ensures items[i] in items && 0 <= items[i] < |heap.mem| && heap.mem[items[i]].key == order[i]
    {
      FlowTableFacts();
      TourKey(heap.mem, items, nodeOf, order, i);
    }

    /** `screen_hash_clear`, the start of `analyse_data` when the order is frozen. */
    method ClearLines()
      requires ScreenOk()
      modifies this`lines, this`lineMem
      ensures ScreenOk() && lines == Cleared(old(lines))
    {
      ghost var order := StartLines();
      ghost var i := 0;
      var node := NextLine(NULL);
      while node != NULL
        invariant ScreenOk() && i <= |shown| && node == At(shown, i) && lines.Keys == old(lines).Keys
        invariant forall k | k in lines :: lines[k] == if k in order[..i] then ZERO_LINE else old(lines)[k]
        decreases |shown| - i
      {
        LineAt(order, i);
        SetLine(node, ZERO_LINE);
        node := NextLine(node);
        TourNext(order, shown, lineOf, i, node);
        i := i + 1;
      }
      TourEnd(order, shown, lineOf, i);
    }

    /** The line that a flow is shown on, created if there is none. */
    method LineFor(key: AddrPair) returns (x: int, l: RawLine)
      requires Stored()
      modifies this`lineOf, this`lines, this`shown, this`lineMem, heap
      ensures Stored() && x in shown && 0 <= x < |heap.mem| && heap.mem[x].key == key
      ensures l == (if key in old(lines) then old(lines)[key] else ZERO_LINE) && l.Sized()
      ensures lines == old(lines)[key := l]
    {
      x := FindLine(key);
      if x == NULL {
        x := AddLine(key);
      }
      l := LoadLine(x);
    }

    /** One turn of the main loop of `analyse_data`. */
    method GroupFlow(o: Grouping, node: int)
      requires Valid() && node in items && 0 <= node < |heap.mem|
      modifies this`lineOf, this`lines, this`shown, this`lineMem, heap
      ensures Valid() && old(heap.mem)[node].key in flows
      ensures var k := old(heap.mem)[node].key;
              lines == Grouped(old(lines), o, k, flows[k], pos)
    {
      var h := Load(node);
      var x, l := LineFor(Project(o, heap.mem[node].key));
      var sum := Accumulate(l, h, pos);
      SetLine(x, sum);
    }

    /** The same, and on to the next flow: flows are iterated while lines are inserted next to them. */
    method GroupNext(o: Grouping, node: int, ghost blank: Lines, ghost order: seq<AddrPair>,
                     ghost i: nat) returns (next: int)
      requires Valid() && Tour(order, items, nodeOf) && i < |items| && node == items[i]
      requires HalfGrouped(lines, blank, o, flows, order, i, pos)
      modifies this`lineOf, this`lines, this`shown, this`lineMem, heap
      ensures Valid() && next == At(items, i + 1)
      ensures HalfGrouped(lines, blank, o, flows, order, i + 1, pos)
    {
      FlowAt(order, i);
      ghost var was := lines;
      GroupFlow(o, node);
      HalfGroupedStep(was, blank, o, flows, order, i, pos);
      next := NextFlow(node);
      TourNext(order, items, nodeOf, i, next);
    }

    /** The main loop of `analyse_data`. */
    method GroupFlows(o: Grouping) returns (ghost order: seq<AddrPair>)
      requires Valid()
      modifies this`lineOf, this`lines, this`shown, this`lineMem, heap
      ensures Valid() && VisitsAll(order, flows)
      ensures lines == GroupAll(old(lines), o, flows, order, pos)
    {
      ghost var blank := lines;
      order := StartFlows();
      HalfGroupedStart(blank, o, flows, order, pos);
      ghost var i := 0;
      var node := NextFlow(NULL);
      while node != NULL
        invariant Valid() && i <= |items| && node == At(items, i)
        invariant HalfGrouped(lines, blank, o, flows, order, i, pos)
        decreases |items| - i
      {
        node := GroupNext(o, node, blank, order, i);
        i := i + 1;
      }
      TourEnd(order, items, nodeOf, i);
      HalfGroupedEnd(lines, blank, o, flows, order, i, pos);
    }

    /** The loop of `make_screen_list` over the line table. */
    method ReadLines() returns (raw: Lines, order: seq<AddrPair>)
      requires ScreenOk()
      ensures raw == lines && ListsAll(order, lines.Keys)
    {
      ghost var keys := StartLines();
      raw, order := map[], [];
      var node := NextLine(NULL);
      while node != NULL
        invariant |order| <= |shown| && node == At(shown, |order|) && order == keys[..|order|]
        invariant forall k :: k in raw <==> k in order
        invariant forall k | k in raw :: k in lines && raw[k] == lines[k]
        decreases |shown| - |order|
      {
        ghost var i := |order|;
        LineAt(keys, i);
        var l := LoadLine(node);
        raw := raw[heap.mem[node].key := l];
        order := order + [heap.mem[node].key];
        node := NextLine(node);
        TourNext(keys, shown, lineOf, i, node);
      }
      TourEnd(keys, shown, lineOf, |order|);
    }
  }
}
