/** The name-resolution protocol of src/util/resolver.c as a state machine over its critical sections:
    any number of callers of `resolve`, worker threads that drop the mutex around the lookup, a ring
    queue and a cache that is flushed when full. */
module Resolver {
  import opened Prelude
  import opened NameCache
  import Ring

  const RESOLVE_QUEUE_LENGTH := 20
  const NS_HASH_MAX_ENTRIES := 16384
  const WORKERS := 2

  /** The globals guarded by `resolver_queue_mutex`. */
  datatype Shared = Shared(queue: seq<Addr>, head: int, tail: int, cache: Buckets, entries: int)
  {
    predicate Sized() {
      && |queue| == RESOLVE_QUEUE_LENGTH && |cache| == TABLE_SIZE
      && 0 <= head < RESOLVE_QUEUE_LENGTH && 0 <= tail < RESOLVE_QUEUE_LENGTH
    }
  }

  function Next(i: int): (r: int)
    requires 0 <= i < RESOLVE_QUEUE_LENGTH
    ensures 0 <= r < RESOLVE_QUEUE_LENGTH
  {
    Ring.Next(RESOLVE_QUEUE_LENGTH, i)
  }

  /** Link-local and site-local IPv6 addresses, fe80::/10 and fec0::/10, are never looked up. */
  predicate StaysNumeric(a: Addr) {
    a.v6 && (a.bits / 0x40_0000_0000_0000_0000_0000_0000_0000 == 0x3fa ||
             a.bits / 0x40_0000_0000_0000_0000_0000_0000_0000 == 0x3fb)
  }

  predicate IsFull(s: Shared) {
    s.entries >= NS_HASH_MAX_ENTRIES
  }

  /** `ns_hash_evict_if_full` */
  function EvictIfFull(s: Shared): (r: Shared)
    requires s.Sized()
    ensures r.Sized()
  {
    if IsFull(s) then s.(cache := Empty(), entries := 0) else s
  }

  datatype Resolved = Resolved(shared: Shared, name: Name, added: bool, flushed: bool)

  /** The critical section of `resolve`. */
  function Resolve(s: Shared, a: Addr): (r: Resolved)
    requires s.Sized()
    ensures r.shared.Sized()
  {
    if Cached(s.cache, a) then Resolved(s, Find(s.cache, a).value, false, false)
    else
      var e := EvictIfFull(s);
      var t := e.(cache := Insert(e.cache, a, Numeric(a)), entries := e.entries + 1);
      if Next(s.head) == s.tail || StaysNumeric(a) then Resolved(t, Numeric(a), false, IsFull(s))
      else Resolved(t.(queue := s.queue[s.head := a], head := Next(s.head)), Numeric(a), true, IsFull(s))
  }

  /** A worker takes the oldest job. */
  function Take(s: Shared): (r: Shared)
    requires s.Sized()
    ensures r.Sized()
  {
    s.(tail := Next(s.tail))
  }

  /** A worker stores what `do_resolve` answered for `a`. */
  function Store(s: Shared, a: Addr, answer: Option<string>): (r: Shared)
    requires s.Sized()
    ensures r.Sized()
  {
    if answer.None? then s
    else if Cached(s.cache, a) then s.(cache := Insert(Delete(s.cache, a), a, Answer(answer.value)))
    else s.(cache := Insert(s.cache, a, Answer(answer.value)), entries := s.entries + 1)
  }

  // ---- The ring queue ----

  /** `n` cells of the queue from cell `i` on. */
  function Segment(queue: seq<Addr>, i: int, n: nat): seq<Addr>
    requires |queue| == RESOLVE_QUEUE_LENGTH && 0 <= i < RESOLVE_QUEUE_LENGTH
    decreases n
  {
    if n == 0 then [] else [queue[i]] + Segment(queue, Next(i), n - 1)
  }

  function Backlog(s: Shared): (n: nat)
    requires s.Sized()
    ensures n < RESOLVE_QUEUE_LENGTH
    ensures n == 0 <==> s.head == s.tail
  {
    Ring.Ahead(RESOLVE_QUEUE_LENGTH, s.tail, s.head)
  }

  /** The jobs on the queue, oldest first. */
  function Pending(s: Shared): seq<Addr>
    requires s.Sized()
  {
    Segment(s.queue, s.tail, Backlog(s))
  }

  lemma {:induction false} SegmentLength(queue: seq<Addr>, i: int, n: nat)
    requires |queue| == RESOLVE_QUEUE_LENGTH && 0 <= i < RESOLVE_QUEUE_LENGTH
    ensures |Segment(queue, i, n)| == n
    decreases n
  {
    if n == 0 {
    } else {
      SegmentLength(queue, Next(i), n - 1);
      assert Segment(queue, i, n) == [queue[i]] + Segment(queue, Next(i), n - 1);
    }
  }

  /** Writing at the head appends, as long as the ring is not full. */
  lemma {:induction false} SegmentAppend(queue: seq<Addr>, i: int, n: nat, head: int, a: Addr)
    requires |queue| == RESOLVE_QUEUE_LENGTH && 0 <= i < RESOLVE_QUEUE_LENGTH
    requires 0 <= head < RESOLVE_QUEUE_LENGTH && n == Ring.Ahead(RESOLVE_QUEUE_LENGTH, i, head)
    ensures Segment(queue[head := a], i, n + 1) == Segment(queue, i, n) + [a]
    decreases n
  {
    if n == 0 {
      assert Segment(queue[head := a], Next(i), 0) == [];
    } else {
      SegmentAppend(queue, Next(i), n - 1, head, a);
      assert i != head;
    }
  }

  lemma BacklogGrows(s: Shared)
    requires s.Sized() && Next(s.head) != s.tail
    ensures Backlog(s.(head := Next(s.head))) == Backlog(s) + 1
  {
  }

  lemma PendingAfterEnqueue(s: Shared, a: Addr)
    requires s.Sized() && Next(s.head) != s.tail
    ensures var t := s.(queue := s.queue[s.head := a], head := Next(s.head));
            Pending(t) == Pending(s) + [a]
  {
    BacklogGrows(s);
    SegmentAppend(s.queue, s.tail, Backlog(s), s.head, a);
  }

  lemma PendingAfterTake(s: Shared)
    requires s.Sized() && s.head != s.tail
    ensures Pending(s) == [s.queue[s.tail]] + Pending(Take(s))
  {
    assert Backlog(Take(s)) == Backlog(s) - 1;
  }

  lemma FullBacklog(s: Shared)
    requires s.Sized()
    ensures Next(s.head) == s.tail <==> Backlog(s) == RESOLVE_QUEUE_LENGTH - 1
  {
  }

  /** fe80::/10 and fec0::/10 as ranges of addresses. */
  lemma StaysNumericRange(a: Addr)
    ensures StaysNumeric(a) <==>
            && a.v6
            && (|| 0xfe80_0000_0000_0000_0000_0000_0000_0000 <= a.bits < 0xfec0_0000_0000_0000_0000_0000_0000_0000
                || 0xfec0_0000_0000_0000_0000_0000_0000_0000 <= a.bits < 0xff00_0000_0000_0000_0000_0000_0000_0000)
  {
  }

  /** `resolve` queues a job exactly when the address is not cached, is neither link-local nor site-local,
      and fewer than 19 jobs are pending; the job goes to the end of the queue. */
  lemma JobsAfterResolve(s: Shared, a: Addr)
    requires s.Sized()
    ensures var r := Resolve(s, a);
            && (r.added <==> !Cached(s.cache, a) && !StaysNumeric(a) && |Pending(s)| < 19)
            && Pending(r.shared) == if r.added then Pending(s) + [a] else Pending(s)
  {
    SegmentLength(s.queue, s.tail, Backlog(s));
    FullBacklog(s);
    var r := Resolve(s, a);
    if r.added {
      PendingAfterEnqueue(s, a);
      assert Pending(r.shared) == Pending(s) + [a];
    } else {
      assert Pending(r.shared) == Pending(s);
    }
  }

  // ---- Names and counters ----

  /** `x` is a proper name for `a`: its numeric form, or an answer that a lookup of `a` gave. */
  predicate ProperName(answers: set<(Addr, string)>, a: Addr, x: Name) {
    match x
    case Numeric(b) => b == a
    case Answer(text) => (a, text) in answers
  }

  ghost predicate ProperNames(t: Buckets, answers: set<(Addr, string)>)
    requires |t| == TABLE_SIZE
  {
    forall a | Cached(t, a) :: ProperName(answers, a, Find(t, a).value)
  }

  /** Keys are unique, the counter is the number of entries, and every name is proper. */
  ghost predicate CacheOk(s: Shared, answers: set<(Addr, string)>)
    requires s.Sized()
  {
    && WellFormed(s.cache)
    && s.entries == Count(s.cache)
    && ProperNames(s.cache, answers)
  }

  lemma CacheAfterEvict(s: Shared, answers: set<(Addr, string)>)
    requires s.Sized() && CacheOk(s, answers)
    ensures CacheOk(EvictIfFull(s), answers) && EvictIfFull(s).entries < NS_HASH_MAX_ENTRIES
    ensures forall x :: Cached(EvictIfFull(s).cache, x) <==> Cached(s.cache, x) && !IsFull(s)
  {
    if IsFull(s) {
      EmptyIsWellFormed();
    }
  }

  lemma CacheAfterInsert(s: Shared, answers: set<(Addr, string)>, a: Addr, n: Name)
    requires s.Sized() && CacheOk(s, answers) && !Cached(s.cache, a) && ProperName(answers, a, n)
    ensures CacheOk(s.(cache := Insert(s.cache, a, n), entries := s.entries + 1), answers)
    ensures forall x :: Cached(Insert(s.cache, a, n), x) <==> x == a || Cached(s.cache, x)
  {
    InsertNew(s.cache, a, n);
  }

  /** `resolve` keeps the cache in order, leaves `a` cached, flushes only when full, returns a proper
      name, and never leaves more than the maximum behind. */
  lemma CacheAfterResolve(s: Shared, answers: set<(Addr, string)>, a: Addr)
    requires s.Sized() && CacheOk(s, answers)
    ensures var r := Resolve(s, a);
            && CacheOk(r.shared, answers) && ProperName(answers, a, r.name)
            && (forall x :: Cached(r.shared.cache, x) <==> x == a || (Cached(s.cache, x) && !r.flushed))
            && (r.shared != s ==> r.shared.entries <= NS_HASH_MAX_ENTRIES)
  {
    if !Cached(s.cache, a) {
      CacheAfterEvict(s, answers);
      CacheAfterInsert(EvictIfFull(s), answers, a, Numeric(a));
    }
  }

  lemma CacheAfterReplace(s: Shared, answers: set<(Addr, string)>, a: Addr, n: Name)
    requires s.Sized() && CacheOk(s, answers) && Cached(s.cache, a) && ProperName(answers, a, n)
    ensures CacheOk(s.(cache := Insert(Delete(s.cache, a), a, n)), answers)
    ensures forall x :: Cached(Insert(Delete(s.cache, a), a, n), x) <==> Cached(s.cache, x)
  {
    Replace(s.cache, a, n);
  }

  lemma CacheAfterStore(s: Shared, answers: set<(Addr, string)>, a: Addr, answer: Option<string>)
    requires s.Sized() && CacheOk(s, answers)
    ensures var r := Store(s, a, answer);
            && CacheOk(r, if answer.Some? then answers + {(a, answer.value)} else answers)
            && (forall x :: Cached(r.cache, x) <==> Cached(s.cache, x) || (x == a && answer.Some?))
  {
    if answer.Some? {
      var more := answers + {(a, answer.value)};
      assert CacheOk(s, more);
      if Cached(s.cache, a) {
        CacheAfterReplace(s, more, a, Answer(answer.value));
      } else {
        CacheAfterInsert(s, more, a, Answer(answer.value));
      }
    }
  }

  /** A lookup that answers replaces the name of its address and touches no other; one that fails changes
      nothing. */
  lemma StoreIsUpdate(s: Shared, answers: set<(Addr, string)>, a: Addr, answer: Option<string>, x: Addr)
    requires s.Sized() && CacheOk(s, answers)
    ensures Find(Store(s, a, answer).cache, x) ==
            if x == a && answer.Some? then Some(Answer(answer.value)) else Find(s.cache, x)
  {
    if answer.Some? {
      if Cached(s.cache, a) {
        Replace(s.cache, a, Answer(answer.value));
      } else {
        InsertNew(s.cache, a, Answer(answer.value));
      }
    }
  }

  /** What `resolve` answers: the cached name of a cached address, changing nothing at all, and else the
      numeric form. */
  lemma ResolveAnswers(s: Shared, a: Addr)
    requires s.Sized()
    ensures var r := Resolve(s, a);
            && (Cached(s.cache, a) ==> r.shared == s && Find(s.cache, a) == Some(r.name) && !r.added && !r.flushed)
            && (!Cached(s.cache, a) ==> r.name == Numeric(a))
  {
  }

  /** After `resolve` an address has the name that was returned; other names stay, or are all gone if the
      cache was flushed. */
  lemma ResolveIsUpdate(s: Shared, answers: set<(Addr, string)>, a: Addr, x: Addr)
    requires s.Sized() && CacheOk(s, answers)
    ensures var r := Resolve(s, a);
            && Find(r.shared.cache, x) == (if x == a then Some(r.name) else if r.flushed then None else Find(s.cache, x))
            && (r.flushed <==> !Cached(s.cache, a) && s.entries >= NS_HASH_MAX_ENTRIES)
  {
    if !Cached(s.cache, a) {
      CacheAfterEvict(s, answers);
      InsertNew(EvictIfFull(s).cache, a, Numeric(a));
      if IsFull(s) {
        EmptyIsWellFormed();
        assert !Cached(Empty(), x);
      }
    }
  }
}
