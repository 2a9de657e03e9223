/** The unbalanced binary search tree of src/data/map/stringmap.c.  Nodes live in an arena in the order
    of their allocation and a pointer is an index into it. */
module StringMap {
  import opened CString
  import opened Prelude

  datatype Node = Node(key: string, data: string, lesser: int, greater: int)

  /** The tree; the root, if it has a key, is node 0. */
  type Nodes = seq<Node>

  /** Children are allocated after their parent. */
  ghost predicate Ordered(t: Nodes) {
    forall i | 0 <= i < |t| ::
      && (t[i].lesser == NULL || i < t[i].lesser < |t|)
      && (t[i].greater == NULL || i < t[i].greater < |t|)
  }

  /** Where the walk for a key ends: at its node, or at the missing child of a node. */
  datatype Place = Found(node: int) | Missing(parent: int, less: bool)

  function Child(n: Node, less: bool): int {
    if less then n.lesser else n.greater
  }

  function WithChild(n: Node, less: bool, c: int): Node {
    if less then n.(lesser := c) else n.(greater := c)
  }

  function Search(t: Nodes, cur: int, key: string): Place
    requires Ordered(t) && 0 <= cur < |t|
    decreases |t| - cur
  {
    var c := Strcmp(key, t[cur].key);
    if c == 0 then Found(cur)
    else if Child(t[cur], c < 0) == NULL then Missing(cur, c < 0)
    else Search(t, Child(t[cur], c < 0), key)
  }

  /** Every stored key is found at its own node. */
  ghost predicate IsTree(t: Nodes) {
    Ordered(t) && forall i | 0 <= i < |t| :: Search(t, 0, t[i].key) == Found(i)
  }

  /** The map that the tree stands for. */
  function Lookup(t: Nodes, key: string): Option<string>
    requires Ordered(t)
  {
    if t == [] then None
    else
      match Search(t, 0, key)
      case Found(i) => if 0 <= i < |t| then Some(t[i].data) else None
      case Missing(_, _) => None
  }

  function Attach(t: Nodes, parent: int, less: bool, key: string, data: string): Nodes
    requires 0 <= parent < |t|
  {
    t[parent := WithChild(t[parent], less, |t|)] + [Node(key, data, NULL, NULL)]
  }

  lemma {:induction false} SearchStays(t: Nodes, cur: int, key: string)
    requires Ordered(t) && 0 <= cur < |t|
    ensures match Search(t, cur, key)
            case Found(i) => 0 <= i < |t| && t[i].key == key
            case Missing(p, less) => 0 <= p < |t| && Child(t[p], less) == NULL
    decreases |t| - cur
  {
    StrcmpTotalOrder(key, t[cur].key, key);
    var c := Strcmp(key, t[cur].key);
    if c != 0 && Child(t[cur], c < 0) != NULL {
      SearchStays(t, Child(t[cur], c < 0), key);
    }
  }

  /** After a node is attached, a walk ends where it ended before, unless it fell off at that very spot. */
  lemma {:induction false} SearchAfterAttach(t: Nodes, parent: int, less: bool, key: string, data: string, cur: int,
                                             k: string)
    requires Ordered(t) && 0 <= parent < |t| && Child(t[parent], less) == NULL && 0 <= cur < |t|
    ensures var u := Attach(t, parent, less, key, data);
            && Ordered(u)
            && (Search(t, cur, k) != Missing(parent, less) ==> Search(u, cur, k) == Search(t, cur, k))
            && (Search(t, cur, k) == Missing(parent, less) ==>
                  if k == key then Search(u, cur, k) == Found(|t|) else Search(u, cur, k).Missing?)
    decreases |t| - cur
  {
    var u := Attach(t, parent, less, key, data);
    StrcmpTotalOrder(k, t[cur].key, k);
    StrcmpTotalOrder(k, key, k);
    var c := Strcmp(k, t[cur].key);
    if c != 0 && Child(t[cur], c < 0) != NULL {
      SearchAfterAttach(t, parent, less, key, data, Child(t[cur], c < 0), k);
    }
  }

  lemma AttachKeepsTree(t: Nodes, parent: int, less: bool, key: string, data: string)
    requires IsTree(t) && t != [] && Search(t, 0, key) == Missing(parent, less)
    requires 0 <= parent < |t| && Child(t[parent], less) == NULL
    ensures IsTree(Attach(t, parent, less, key, data))
  {
    var u := Attach(t, parent, less, key, data);
    forall i | 0 <= i < |u|
      ensures Ordered(u) && Search(u, 0, u[i].key) == Found(i)
    {
      SearchAfterAttach(t, parent, less, key, data, 0, u[i].key);
    }
  }

  /** Attaching where the walk for a key ends keeps the tree and adds exactly that key. */
  lemma AttachAdds(t: Nodes, parent: int, less: bool, key: string, data: string, k: string)
    requires IsTree(t) && t != [] && Search(t, 0, key) == Missing(parent, less)
    ensures 0 <= parent < |t| && Child(t[parent], less) == NULL
    ensures IsTree(Attach(t, parent, less, key, data))
    ensures Lookup(Attach(t, parent, less, key, data), k) == if k == key then Some(data) else Lookup(t, k)
  {
    SearchStays(t, 0, key);
    SearchStays(t, 0, k);
    AttachKeepsTree(t, parent, less, key, data);
    SearchAfterAttach(t, parent, less, key, data, 0, k);
  }

  function SetData(t: Nodes, i: int, data: string): Nodes
    requires 0 <= i < |t|
  {
    t[i := t[i].(data := data)]
  }

  lemma {:induction false} SearchAfterSet(t: Nodes, i: int, data: string, cur: int, k: string)
    requires Ordered(t) && 0 <= i < |t| && 0 <= cur < |t|
    ensures Ordered(SetData(t, i, data)) && Search(SetData(t, i, data), cur, k) == Search(t, cur, k)
    decreases |t| - cur
  {
    var c := Strcmp(k, t[cur].key);
    if c != 0 && Child(t[cur], c < 0) != NULL {
      SearchAfterSet(t, i, data, Child(t[cur], c < 0), k);
    }
  }

  lemma SetDataSets(t: Nodes, i: int, data: string, k: string)
    requires IsTree(t) && 0 <= i < |t|
    ensures IsTree(SetData(t, i, data))
    ensures Lookup(SetData(t, i, data), k) == if k == t[i].key then Some(data) else Lookup(t, k)
  {
    SearchAfterSet(t, i, data, 0, k);
    SearchStays(t, 0, k);
    forall j | 0 <= j < |t|
      ensures Ordered(SetData(t, i, data)) && Search(SetData(t, i, data), 0, SetData(t, i, data)[j].key) == Found(j)
    {
      SearchAfterSet(t, i, data, 0, t[j].key);
    }
  }

  lemma SingleNode(key: string, data: string)
    ensures var t := [Node(key, data, NULL, NULL)];
            IsTree(t) && forall k :: Lookup(t, k) == if k == key then Some(data) else None
  {
    var t := [Node(key, data, NULL, NULL)];
    forall k
      ensures Lookup(t, k) == if k == key then Some(data) else None
    {
      StrcmpTotalOrder(k, key, k);
    }
    StrcmpTotalOrder(key, key, key);
  }

  lemma AttachAddsOne(t: Nodes, parent: int, less: bool, key: string, data: string)
    requires IsTree(t) && t != [] && Search(t, 0, key) == Missing(parent, less)
    ensures 0 <= parent < |t| && IsTree(Attach(t, parent, less, key, data))
    ensures forall k :: Lookup(Attach(t, parent, less, key, data), k) == if k == key then Some(data) else Lookup(t, k)
  {
    AttachAdds(t, parent, less, key, data, key);
    forall k
      ensures Lookup(Attach(t, parent, less, key, data), k) == if k == key then Some(data) else Lookup(t, k)
    {
      AttachAdds(t, parent, less, key, data, k);
    }
  }

  /** The map after an insertion that lets an existing item win. */
  function Inserted(t: Nodes, key: string, data: string, k: string): Option<string>
    requires Ordered(t)
  {
    if k == key && Lookup(t, key).None? then Some(data) else Lookup(t, k)
  }

  class Tree {
    var nodes: Nodes

    ghost predicate Valid()
      reads this
    {
      IsTree(nodes)
    }

    /** `stringmap_new` */
    constructor ()
      ensures Valid() && nodes == []
    {
      nodes := [];
    }

    /** The walk shared by `stringmap_insert` and `stringmap_find`. */
    method Walk(key: string) returns (place: Place)
      requires Valid() && nodes != []
      ensures place == Search(nodes, 0, key)
    {
      var cur := 0;
      while true
        invariant 0 <= cur < |nodes| && Search(nodes, cur, key) == Search(nodes, 0, key)
        decreases |nodes| - cur
      {
        var c := Strcmp(key, nodes[cur].key);
        if c == 0 {
          return Found(cur);
        }
        var next := if c < 0 then nodes[cur].lesser else nodes[cur].greater;
        if next == NULL {
          return Missing(cur, c < 0);
        }
        cur := next;
      }
    }

    /** `stringmap_find` */
    method Find(key: string) returns (node: int)
      requires Valid()
      ensures if node == NULL then Lookup(nodes, key) == None
              else 0 <= node < |nodes| && nodes[node].key == key && Lookup(nodes, key) == Some(nodes[node].data)
    {
      if nodes == [] {
        return NULL;
      }
      var place := Walk(key);
      SearchStays(nodes, 0, key);
      node := if place.Found? then place.node else NULL;
    }

    /** `stringmap_insert`: an existing item wins and is returned. */
    method Insert(key: string, data: string) returns (existing: int)
      requires Valid()
      modifies this
      ensures Valid() && forall k :: Lookup(nodes, k) == Inserted(old(nodes), key, data, k)
      ensures existing == NULL <==> old(Lookup(nodes, key)).None?
      ensures existing != NULL ==> nodes == old(nodes) && 0 <= existing < |nodes| && nodes[existing].key == key
    {
      if nodes == [] {
        SingleNode(key, data);
        nodes := [Node(key, data, NULL, NULL)];
        return NULL;
      }
      var place := Walk(key);
      SearchStays(nodes, 0, key);
      match place {
        case Found(i) =>
          existing := i;
        case Missing(p, less) =>
          AttachAddsOne(nodes, p, less, key, data);
          nodes := Attach(nodes, p, less, key, data);
          existing := NULL;
      }
    }
  }
}
