/** The service names of src/data/map/serv_hash.c: one array of names per port for TCP and for UDP, and
    a chained hash for every other protocol and for ports outside the arrays. */
module ServTable {
  import opened Prelude
  import opened Chains

  const SERV_NUM_PORTS := 65536
  const OTHER_HASH_SIZE := 127

  /** `ip_service` */
  datatype Service = Service(port: int, protocol: int)

  type Column = seq<Option<string>>
  type Bucket = Chain<Service, string>

  datatype Place = Tcp | Udp | Other

  /** `serv_slot`; `Other` is its null result. */
  function PlaceOf(s: Service): Place {
    if s.port < 0 || s.port >= SERV_NUM_PORTS then Other
    else if s.protocol == 6 then Tcp
    else if s.protocol == 17 then Udp
    else Other
  }

  /** `other_hash`: the sum converted to unsigned before the remainder is taken. */
  function OtherHash(s: Service): (b: nat)
    ensures b < OTHER_HASH_SIZE
  {
    (s.port * 31 + s.protocol) % 0x1_0000_0000 % OTHER_HASH_SIZE
  }

  // ---- What the three structures hold together ----

  /** The contents of the table. */
  datatype Shelf = Shelf(tcp: Column, udp: Column, other: seq<Bucket>) {
    ghost predicate Sized() {
      |tcp| == |udp| == SERV_NUM_PORTS && |other| == OTHER_HASH_SIZE
    }

    ghost predicate WellFormed() {
      && Sized()
      && forall b | 0 <= b < OTHER_HASH_SIZE :: UniqueKeys(other[b])
    }

    function Get(s: Service): Option<string>
      requires Sized()
    {
      match PlaceOf(s)
      case Tcp => tcp[s.port]
      case Udp => udp[s.port]
      case Other => FindIn(other[OtherHash(s)], s)
    }
  }

  function Lookup<K, V>(m: map<K, V>, k: K): Option<V> {
    if k in m then Some(m[k]) else None
  }

  /** The table is the map `names`. */
  ghost predicate Holds(t: Shelf, names: map<Service, string>) {
    && t.WellFormed()
    && forall s :: t.Get(s) == Lookup(names, s)
  }

  function Updated<K, V>(m: map<K, V>, k: K, v: Option<V>): map<K, V> {
    if v.Some? then m[k := v.value] else m - {k}
  }

  lemma HoldsAfterTcp(t: Shelf, names: map<Service, string>, s: Service, v: Option<string>)
    requires Holds(t, names) && PlaceOf(s) == Tcp
    ensures Holds(t.(tcp := t.tcp[s.port := v]), Updated(names, s, v))
  {
    var t' := t.(tcp := t.tcp[s.port := v]);
    forall x: Service
      ensures t'.Get(x) == Lookup(Updated(names, s, v), x)
    {
      assert t.Get(x) == Lookup(names, x);
    }
  }

  lemma HoldsAfterUdp(t: Shelf, names: map<Service, string>, s: Service, v: Option<string>)
    requires Holds(t, names) && PlaceOf(s) == Udp
    ensures Holds(t.(udp := t.udp[s.port := v]), Updated(names, s, v))
  {
    var t' := t.(udp := t.udp[s.port := v]);
    forall x: Service
      ensures t'.Get(x) == Lookup(Updated(names, s, v), x)
    {
      assert t.Get(x) == Lookup(names, x);
    }
  }

  lemma HoldsAfterDelete(t: Shelf, names: map<Service, string>, s: Service)
    requires Holds(t, names) && PlaceOf(s) == Other
    ensures var b := OtherHash(s);
            Holds(t.(other := t.other[b := DeleteIn(t.other[b], s)]), Updated(names, s, None))
  {
    var c := t.other[OtherHash(s)];
    var t' := t.(other := t.other[OtherHash(s) := DeleteIn(c, s)]);
    DeleteMeansRemove(c, s);
    FindMeansMember(DeleteIn(c, s), s);
    forall x: Service
      ensures t'.Get(x) == Lookup(Updated(names, s, None), x)
    {
      assert t.Get(x) == Lookup(names, x);
    }
  }

  lemma HoldsAfterInsert(t: Shelf, names: map<Service, string>, s: Service, name: string)
    requires Holds(t, names) && PlaceOf(s) == Other && s !in names
    ensures var b := OtherHash(s);
            Holds(t.(other := t.other[b := [Entry(s, name)] + t.other[b]]), names[s := name])
  {
    var c := t.other[OtherHash(s)];
    var t' := t.(other := t.other[OtherHash(s) := [Entry(s, name)] + c]);
    assert t.Get(s) == None;
    FindMeansMember(c, s);
    assert ([Entry(s, name)] + c)[1..] == c;
    forall x: Service
      ensures t'.Get(x) == Lookup(names[s := name], x)
    {
      assert t.Get(x) == Lookup(names, x);
    }
  }

  // ---- Runs ----

  datatype Op = Bind(service: Service, name: string) | Unbind(service: Service)

  /** The name map and the counter after a run. */
  datatype Book = Book(names: map<Service, string>, count: int)

  function Do(b: Book, op: Op): Book {
    match op
    case Bind(s, name) => Book(b.names[s := name], b.count + 1)
    case Unbind(s) => if s in b.names then Book(b.names - {s}, b.count - 1) else b
  }

  function Run(ops: seq<Op>): Book {
    if ops == [] then Book(map[], 0) else Do(Run(ops[..|ops| - 1]), ops[|ops| - 1])
  }

  /** What the last operation about a service left there. */
  function LastAbout(ops: seq<Op>, s: Service): Option<string> {
    if ops == [] then None
    else
      var op := ops[|ops| - 1];
      if op.service != s then LastAbout(ops[..|ops| - 1], s)
      else if op.Bind? then Some(op.name) else None
  }

  /** A lookup after any run answers with the last binding, unless it was taken back since. */
  lemma {:induction false} LookupIsLastBinding(ops: seq<Op>, s: Service)
    ensures Lookup(Run(ops).names, s) == LastAbout(ops, s)
  {
    if ops == [] {
    } else {
      LookupIsLastBinding(ops[..|ops| - 1], s);
    }
  }

  /** Operation `i` binds a service that already has a name. */
  predicate Rebinds(ops: seq<Op>, i: nat)
    requires i < |ops|
  {
    ops[i].Bind? && LastAbout(ops[..i], ops[i].service).Some?
  }

  function Rebindings(ops: seq<Op>): nat {
    if ops == [] then 0
    else Rebindings(ops[..|ops| - 1]) + if Rebinds(ops, |ops| - 1) then 1 else 0
  }

  lemma SizeAfter<K, V>(m: map<K, V>, k: K, v: Option<V>)
    ensures |Updated(m, k, v)| == |m| - (if k in m then 1 else 0) + if v.Some? then 1 else 0
  {
    assert Updated(m, k, v).Keys == if v.Some? then m.Keys + {k} else m.Keys - {k};
    assert |Updated(m, k, v)| == |Updated(m, k, v).Keys| && |m| == |m.Keys|;
  }

  /** The counter grows with every insertion, so it is ahead by one for each rebinding. */
  lemma {:induction false} CountLaw(ops: seq<Op>)
    ensures Run(ops).count == |Run(ops).names| + Rebindings(ops)
  {
    if ops == [] {
    } else {
      var before, op := ops[..|ops| - 1], ops[|ops| - 1];
      CountLaw(before);
      LookupIsLastBinding(before, op.service);
      var m := Run(before).names;
      SizeAfter(m, op.service, if op.Bind? then Some(op.name) else None);
    }
  }

  lemma {:induction false} NoRebindings(ops: seq<Op>)
    ensures Rebindings(ops) == 0 <==> forall i | 0 <= i < |ops| :: !Rebinds(ops, i)
  {
    if ops == [] {
    } else {
      var before := ops[..|ops| - 1];
      NoRebindings(before);
      assert forall i | 0 <= i < |before| :: before[..i] == ops[..i];
      assert forall i | 0 <= i < |before| :: Rebinds(before, i) <==> Rebinds(ops, i);
    }
  }

  /** `serv_table_count` is the number of bound services exactly when no insertion hit a bound one. */
  lemma CountIsExactly(ops: seq<Op>)
    ensures Run(ops).count >= |Run(ops).names|
    ensures Run(ops).count == |Run(ops).names| <==> forall i | 0 <= i < |ops| :: !Rebinds(ops, i)
  {
    CountLaw(ops);
    NoRebindings(ops);
  }

  /** It can be too large: two insertions for one service count twice. */
  lemma CountCanBeAhead(s: Service, a: string, b: string)
    ensures var r := Run([Bind(s, a), Bind(s, b)]);
            r.names == map[s := b] && r.count == 2
  {
    var ops := [Bind(s, a), Bind(s, b)];
    assert ops[..1] == [Bind(s, a)] && ops[..1][..0] == [];
    assert Run(ops[..1]) == Book(map[s := a], 1);
  }

  // ---- The table ----

  class Table {
    const tcp: array<Option<string>>
    const udp: array<Option<string>>
    var other: seq<Bucket>
    var count: int
    ghost var names: map<Service, string>

    ghost function Contents(): Shelf
      reads this, tcp, udp
    {
      Shelf(tcp[..], udp[..], other)
    }

    ghost predicate Valid()
      reads this, tcp, udp
    {
      tcp != udp && Holds(Contents(), names)
    }

    ghost function State(): Book
      reads this
    {
      Book(names, count)
    }

    /** `serv_table_create` */
    constructor ()
      ensures Valid() && fresh(tcp) && fresh(udp) && State() == Run([])
    {
      tcp := new Option<string>[SERV_NUM_PORTS](_ => None);
      udp := new Option<string>[SERV_NUM_PORTS](_ => None);
      other := seq(OTHER_HASH_SIZE, _ => []);
      count, names := 0, map[];
    }

    /** `serv_table_lookup` */
    method Find(s: Service) returns (name: Option<string>)
      requires Valid()
      ensures name == Lookup(names, s)
    {
      assert Contents().Get(s) == Lookup(names, s);
      match PlaceOf(s) {
        case Tcp => name := tcp[s.port];
        case Udp => name := udp[s.port];
        case Other => name := FindWalk(other[OtherHash(s)], s);
      }
    }

    /** The hash branch of `serv_table_delete` and `serv_table_insert`: drops an existing entry. */
    method DropOther(s: Service)
      requires Valid() && PlaceOf(s) == Other
      modifies this`other, this`names
      ensures Valid() && names == Updated(old(names), s, None)
    {
      HoldsAfterDelete(Contents(), names, s);
      var rest := DeleteWalk(other[OtherHash(s)], s);
      other := other[OtherHash(s) := rest];
      names := Updated(names, s, None);
    }

    /** Writes an array slot. */
    method SetSlot(s: Service, v: Option<string>)
      requires Valid() && PlaceOf(s) != Other
      modifies this`names, tcp, udp
      ensures Valid() && names == Updated(old(names), s, v)
    {
      ghost var t := Contents();
      if PlaceOf(s) == Tcp {
        HoldsAfterTcp(t, names, s, v);
        tcp[s.port] := v;
        assert Contents() == t.(tcp := t.tcp[s.port := v]);
      } else {
        HoldsAfterUdp(t, names, s, v);
        udp[s.port] := v;
        assert Contents() == t.(udp := t.udp[s.port := v]);
      }
      names := Updated(names, s, v);
    }

    /** `serv_table_insert` */
    method Insert(s: Service, name: string)
      requires Valid()
      modifies this, tcp, udp
      ensures Valid() && State() == Do(old(State()), Bind(s, name))
    {
      if PlaceOf(s) != Other {
        SetSlot(s, Some(name));
      } else {
        var existing := Find(s);
        if existing.Some? {
          DropOther(s);
        }
        HoldsAfterInsert(Contents(), names, s, name);
        other := other[OtherHash(s) := [Entry(s, name)] + other[OtherHash(s)]];
        names := names[s := name];
        assert names == old(names)[s := name];
      }
      count := count + 1;
    }

    /** `serv_table_delete` */
    method Delete(s: Service) returns (found: bool)
      requires Valid()
      modifies this, tcp, udp
      ensures Valid() && State() == Do(old(State()), Unbind(s))
      ensures found <==> s in old(names)
    {
      var existing := Find(s);
      found := existing.Some?;
      if found {
        if PlaceOf(s) != Other {
          SetSlot(s, None);
        } else {
          DropOther(s);
        }
        count := count - 1;
      }
    }

    /** Any run of operations from an empty table. */
    method Replay(ops: seq<Op>)
      requires Valid() && State() == Run([])
      modifies this, tcp, udp
      ensures Valid() && State() == Run(ops)
    {
      for i := 0 to |ops|
        invariant Valid() && State() == Run(ops[..i])
      {
        assert ops[..i + 1][..i] == ops[..i];
        match ops[i] {
          case Bind(s, name) => Insert(s, name);
          case Unbind(s) => var _ := Delete(s);
        }
      }
      assert ops[..|ops|] == ops;
    }
  }
}
