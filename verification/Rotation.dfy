/** The loop of `history_rotate` (src/entry/iftop.c), which deletes nodes of the table it iterates. */
module Rotation {
  import opened Prelude
  import opened Packets
  import opened Ledger
  import opened PoolTable
  import opened AddrHash
  import opened RecordTable

  /** The rotation applied to the flows in `done` only. */
  ghost function RotatedFlows(flows: map<AddrPair, Hist>, done: set<AddrPair>, pos: int): map<AddrPair, Hist>
    requires 0 <= pos < HISTORY_LENGTH && SizedFlows(flows)
  {
    map k | k in flows && (k in done ==> flows[k].lastWrite != pos) ::
      if k in done then flows[k].ClearSlot(pos) else flows[k]
  }

  ghost function KeysOf(mem: Memory<AddrPair>, items: seq<int>): set<AddrPair> {
    set x | x in items && 0 <= x < |mem| :: mem[x].key
  }

  lemma RotatedCompletely(s: State)
    requires s.Sized()
    ensures var r := Rotated(s);
            && r.flows == RotatedFlows(s.flows, s.flows.Keys, r.pos)
            && r.pos == NextSlot(s.pos)
            && r.totals == s.totals.ClearSlot(r.pos)
            && r.len == if s.len < HISTORY_LENGTH then s.len + 1 else s.len
  {
  }

  lemma NextKept(kept: seq<int>, order: seq<int>, i: nat)
    requires i < |order|
    ensures kept + order[i..] == kept + [order[i]] + order[i + 1..]
    ensures order[..i + 1] == order[..i] + [order[i]]
  {
  }

  lemma KeysOfOneMore(mem: Memory<AddrPair>, order: seq<int>, nodeOf: map<AddrPair, int>, i: nat)
    requires Indexed(mem, order, nodeOf) && NoDup(order) && i < |order|
    ensures order[i] in order && 0 <= order[i] < |mem|
    ensures mem[order[i]].key !in KeysOf(mem, order[..i])
    ensures KeysOf(mem, order[..i + 1]) == KeysOf(mem, order[..i]) + {mem[order[i]].key}
  {
    var x := order[i];
    assert x in order;
    forall y | y in order[..i]
      ensures y in order && 0 <= y < |mem| && y != x && mem[y].key != mem[x].key
    {
      assert y in order;
      assert nodeOf[mem[y].key] == y && nodeOf[mem[x].key] == x;
    }
    assert order[..i + 1] == order[..i] + [x];
  }

  lemma RotateKey(flows: map<AddrPair, Hist>, done: set<AddrPair>, k: AddrPair, pos: int)
    requires SizedFlows(flows) && 0 <= pos < HISTORY_LENGTH && k in flows && k !in done
    ensures var before, after := RotatedFlows(flows, done, pos), RotatedFlows(flows, done + {k}, pos);
            && k in before && before[k] == flows[k]
            && after == if flows[k].lastWrite == pos then before - {k} else before[k := flows[k].ClearSlot(pos)]
  {
  }

  /** Rotating the flow of one more node. */
  lemma RotateOneMore(mem: Memory<AddrPair>, order: seq<int>, nodeOf: map<AddrPair, int>,
                      flows: map<AddrPair, Hist>, i: nat, pos: int)
    requires Indexed(mem, order, nodeOf) && NoDup(order) && i < |order|
    requires flows.Keys == nodeOf.Keys && SizedFlows(flows) && 0 <= pos < HISTORY_LENGTH
    ensures order[i] in order
    ensures var k := mem[order[i]].key;
            var before := RotatedFlows(flows, KeysOf(mem, order[..i]), pos);
            var after := RotatedFlows(flows, KeysOf(mem, order[..i + 1]), pos);
            && k in before && before[k] == flows[k]
            && after == if flows[k].lastWrite == pos then before - {k} else before[k := flows[k].ClearSlot(pos)]
  {
    KeysOfOneMore(mem, order, nodeOf, i);
    RotateKey(flows, KeysOf(mem, order[..i]), mem[order[i]].key, pos);
  }

  lemma AllKeys(mem: Memory<AddrPair>, order: seq<int>, nodeOf: map<AddrPair, int>, flows: map<AddrPair, Hist>)
    requires Indexed(mem, order, nodeOf) && flows.Keys == nodeOf.Keys
    ensures KeysOf(mem, order) == flows.Keys
  {
    forall k | k in flows
      ensures k in KeysOf(mem, order)
    {
      assert nodeOf[k] in order && mem[nodeOf[k]].key == k;
    }
  }

  /** Half way through the rotation loop: of the original nodes `order`, holding the flows `was`, the
      first `i` have been visited and `kept` are those of them that survived. */
  ghost predicate Halfway(order: seq<int>, i: nat, kept: seq<int>, mem: Memory<AddrPair>,
                          index: map<AddrPair, int>, was: map<AddrPair, Hist>, pos: int,
                          items: seq<int>, flows: map<AddrPair, Hist>) {
    forall g | Opened(order, g) ::
      && 0 <= pos < HISTORY_LENGTH
      && SizedFlows(was) && Indexed(mem, order, index) && NoDup(order) && was.Keys == index.Keys
      && i <= |order| && items == kept + order[i..]
      && flows == RotatedFlows(was, KeysOf(mem, order[..i]), pos)
  }

  lemma HalfwayReady(order: seq<int>, i: nat, kept: seq<int>, mem: Memory<AddrPair>,
                     index: map<AddrPair, int>, was: map<AddrPair, Hist>, pos: int,
                     items: seq<int>, flows: map<AddrPair, Hist>)
    requires Halfway(order, i, kept, mem, index, was, pos, items, flows) && i < |order| && NoDup(items)
    ensures order[i] in items && 0 <= order[i] < |mem| && mem[order[i]].key in flows
  {
    assert Opened(order, 0);
    RotateOneMore(mem, order, index, was, i, pos);
    assert items[|kept|] == order[i];
  }

  lemma HalfwayStep(order: seq<int>, i: nat, kept: seq<int>, mem: Memory<AddrPair>,
                    index: map<AddrPair, int>, was: map<AddrPair, Hist>, pos: int,
                    items: seq<int>, flows: map<AddrPair, Hist>, items': seq<int>, flows': map<AddrPair, Hist>,
                    next: int, k: AddrPair)
    requires Halfway(order, i, kept, mem, index, was, pos, items, flows)
    requires NoDup(items)
    requires i < |order| && 0 <= order[i] < |mem| && k == mem[order[i]].key && k in flows && flows[k].Sized()
    requires Follows(items, order[i], next) && 0 <= pos < HISTORY_LENGTH
    requires if flows[k].lastWrite == pos
             then flows' == flows - {k} && RemovedFrom(items, order[i], items')
             else flows' == flows[k := flows[k].ClearSlot(pos)] && items' == items
    ensures next == At(order, i + 1)
    ensures Halfway(order, i + 1, if flows[k].lastWrite == pos then kept else kept + [order[i]],
                    mem, index, was, pos, items', flows')
  {
    assert Opened(order, 0);
    NextKept(kept, order, i);
    NextInOrder(items, kept, order, i, next);
    RotateOneMore(mem, order, index, was, i, pos);
  }

  lemma HalfwayStart(order: seq<int>, mem: Memory<AddrPair>, index: map<AddrPair, int>,
                     was: map<AddrPair, Hist>, pos: int)
    requires Indexed(mem, order, index) && NoDup(order) && was.Keys == index.Keys
    requires SizedFlows(was) && 0 <= pos < HISTORY_LENGTH
    ensures Halfway(order, 0, [], mem, index, was, pos, order, was)
  {
    assert KeysOf(mem, order[..0]) == {} && order[0..] == order;
  }

  lemma HalfwayEnd(order: seq<int>, i: nat, kept: seq<int>, mem: Memory<AddrPair>,
                   index: map<AddrPair, int>, was: map<AddrPair, Hist>, pos: int,
                   items: seq<int>, flows: map<AddrPair, Hist>)
    requires Halfway(order, i, kept, mem, index, was, pos, items, flows) && i <= |order| && At(order, i) == NULL
    requires SizedFlows(was) && 0 <= pos < HISTORY_LENGTH
    ensures order[..i] == order && flows == RotatedFlows(was, was.Keys, pos)
  {
    assert Opened(order, 0);
    EndOfItems(order, i);
    AllKeys(mem, order, index, was);
  }
}
