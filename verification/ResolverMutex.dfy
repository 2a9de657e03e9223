/** The critical sections of src/util/resolver.c on the mutable globals.  Each method runs with
    `resolver_queue_mutex` held and is one step of the protocol. */
module ResolverMutex {
  import opened Prelude
  import opened Chains
  import opened NameCache
  import R = Resolver

  class Resolver {
    var queue: array<Addr>
    var head: int
    var tail: int
    var cache: Buckets
    var entries: int

    ghost predicate Valid()
      reads this, queue
    {
      Abs().Sized()
    }

    ghost function Abs(): R.Shared
      reads this, queue
    {
      R.Shared(queue[..], head, tail, cache, entries)
    }

    /** `resolver_initialise` */
    constructor ()
      ensures Valid() && fresh(queue)
      ensures Abs() == R.Shared(queue[..], 0, 0, Empty(), 0)
    {
      queue := new Addr[R.RESOLVE_QUEUE_LENGTH](_ => Addr(false, 0));
      head, tail, cache, entries := 0, 0, Empty(), 0;
    }

    /** `ns_hash_evict_if_full` */
    method EvictIfFull()
      requires Valid()
      modifies this`cache, this`entries
      ensures Valid() && Abs() == R.EvictIfFull(old(Abs()))
    {
      if entries >= R.NS_HASH_MAX_ENTRIES {
        cache, entries := Empty(), 0;
      }
    }

    /** The critical section of `resolve`. */
    method Resolve(a: Addr) returns (name: Name, added: bool)
      requires Valid()
      modifies this, queue
      ensures Valid() && queue == old(queue)
      ensures var r := R.Resolve(old(Abs()), a);
              Abs() == r.shared && name == r.name && added == r.added
    {
      added := false;
      var found := FindWalk(cache[Hash(a)], a);
      if found.Some? {
        name := found.value;
        return;
      }
      EvictIfFull();
      name := Numeric(a);
      cache := Insert(cache, a, name);
      entries := entries + 1;
      if R.Next(head) != tail && !R.StaysNumeric(a) {
        queue[head] := a;
        head := R.Next(head);
        added := true;
      }
    }

    /** The head of the worker's inner loop. */
    method TakeJob() returns (a: Addr)
      requires Valid() && head != tail
      modifies this`tail
      ensures Valid() && Abs() == R.Take(old(Abs())) && [a] + R.Pending(Abs()) == R.Pending(old(Abs()))
    {
      R.PendingAfterTake(Abs());
      a := queue[tail];
      tail := R.Next(tail);
    }

    /** The tail of the worker's inner loop, after the lookup. */
    method StoreAnswer(a: Addr, answer: Option<string>)
      requires Valid()
      modifies this`cache, this`entries
      ensures Valid() && Abs() == R.Store(old(Abs()), a, answer)
    {
      if answer.Some? {
        var found := FindWalk(cache[Hash(a)], a);
        if found.Some? {
          var rest := DeleteWalk(cache[Hash(a)], a);
          cache := cache[Hash(a) := rest];
        } else {
          entries := entries + 1;
        }
        cache := Insert(cache, a, Answer(answer.value));
      }
    }
  }
}
