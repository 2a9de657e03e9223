/** Every interleaving of callers and workers of the resolver, and what holds in all of them. */
module ResolverProtocol {
  import opened Prelude
  import opened NameCache
  import opened Resolver

  /** Where a worker thread is: created but not yet in its first wait, waiting on the condition
      variable, running its inner loop, or outside the mutex looking up an address. */
  datatype Worker = Starting | Waiting | Awake | Busy(addr: Addr)

  /** What has happened so far. */
  datatype Log = Log(
    enqueued: seq<Addr>, taken: seq<Addr>, settled: seq<Addr>, sinceFlush: seq<Addr>, answers: set<(Addr, string)>)

  /** `unsignalled` counts the callers that have enqueued, released the mutex and not yet signalled. */
  datatype World = World(shared: Shared, workers: seq<Worker>, unsignalled: nat, log: Log)
  {
    predicate Sized() {
      shared.Sized() && |workers| == WORKERS
    }
  }

  datatype Step =
    | Call(addr: Addr)
    | Signal(worker: nat)
    | Start(worker: nat)
    | TakeJob(worker: nat)
    | StoreAnswer(worker: nat, answer: Option<string>)
    | Wait(worker: nat)
    | SpuriousWake(worker: nat)

  predicate SomeoneWaits(w: World) {
    exists i :: 0 <= i < |w.workers| && w.workers[i].Waiting?
  }

  predicate Enabled(w: World, e: Step)
    requires w.Sized()
  {
    match e
    case Call(_) => true
    case Signal(i) => w.unsignalled > 0 && i < WORKERS && (SomeoneWaits(w) ==> w.workers[i].Waiting?)
    case Start(i) => i < WORKERS && w.workers[i].Starting?
    case TakeJob(i) => i < WORKERS && w.workers[i].Awake? && w.shared.head != w.shared.tail
    case StoreAnswer(i, _) => i < WORKERS && w.workers[i].Busy?
    case Wait(i) => i < WORKERS && w.workers[i].Awake? && w.shared.head == w.shared.tail
    case SpuriousWake(i) => i < WORKERS && w.workers[i].Waiting?
  }

  function LogCall(l: Log, a: Addr, r: Resolved): Log {
    var since := if r.flushed then [] else l.sinceFlush;
    if r.added then l.(enqueued := l.enqueued + [a], sinceFlush := since + [a]) else l.(sinceFlush := since)
  }

  function Apply(w: World, e: Step): (r: World)
    requires w.Sized() && Enabled(w, e)
    ensures r.Sized()
  {
    match e
    case Call(a) =>
      var r := Resolve(w.shared, a);
      World(r.shared, w.workers, w.unsignalled + (if r.added then 1 else 0), LogCall(w.log, a, r))
    case Signal(i) =>
      var woken := if SomeoneWaits(w) then w.workers[i := Awake] else w.workers;
      w.(workers := woken, unsignalled := w.unsignalled - 1)
    case Start(i) => w.(workers := w.workers[i := Waiting])
    case TakeJob(i) =>
      var a := w.shared.queue[w.shared.tail];
      World(Take(w.shared), w.workers[i := Busy(a)], w.unsignalled, w.log.(taken := w.log.taken + [a]))
    case StoreAnswer(i, answer) =>
      var a := w.workers[i].addr;
      var answers := if answer.Some? then w.log.answers + {(a, answer.value)} else w.log.answers;
      var log := w.log.(answers := answers, settled := w.log.settled + [a]);
      World(Store(w.shared, a, answer), w.workers[i := Awake], w.unsignalled, log)
    case Wait(i) => w.(workers := w.workers[i := Waiting])
    case SpuriousWake(i) => w.(workers := w.workers[i := Awake])
  }

  /** The jobs that workers are looking up. */
  function InFlight(workers: seq<Worker>): seq<Addr> {
    if workers == [] then []
    else (if workers[0].Busy? then [workers[0].addr] else []) + InFlight(workers[1..])
  }

  /** `resolver_initialise`, with the workers wherever they have got to. */
  function Init(queue: seq<Addr>, workers: seq<Worker>): World
  {
    World(Shared(queue, 0, 0, Empty(), 0), workers, 0, Log(InFlight(workers), InFlight(workers), [], [], {}))
  }

  /** The world after the steps `es`, if each was possible when its turn came. */
  function Exec(from: World, es: seq<Step>): (r: Option<World>)
    requires from.Sized()
    ensures r.Some? ==> r.value.Sized()
  {
    if es == [] then Some(from)
    else
      var v := Exec(from, es[..|es| - 1]);
      if v.Some? && Enabled(v.value, es[|es| - 1]) then Some(Apply(v.value, es[|es| - 1])) else None
  }

  // ---- The cache and the queue ----

  ghost predicate CacheHolds(w: World)
    requires w.Sized()
  {
    CacheOk(w.shared, w.log.answers)
  }

  lemma CacheStep(w: World, e: Step)
    requires w.Sized() && CacheHolds(w) && Enabled(w, e)
    ensures CacheHolds(Apply(w, e))
  {
    match e
    case Call(a) => CacheAfterResolve(w.shared, w.log.answers, a);
    case StoreAnswer(i, answer) => CacheAfterStore(w.shared, w.log.answers, w.workers[i].addr, answer);
    case _ =>
  }

  /** The queue is first-in first-out, loses nothing and repeats nothing. */
  ghost predicate QueueHolds(w: World)
    requires w.Sized()
  {
    w.log.enqueued == w.log.taken + Pending(w.shared)
  }

  lemma QueueStep(w: World, e: Step)
    requires w.Sized() && QueueHolds(w) && Enabled(w, e)
    ensures QueueHolds(Apply(w, e))
  {
    match e
    case Call(a) =>
      if Resolve(w.shared, a).added {
        PendingAfterEnqueue(w.shared, a);
      }
    case TakeJob(i) =>
      PendingAfterTake(w.shared);
      assert w.log.taken + [w.shared.queue[w.shared.tail]] + Pending(Take(w.shared)) == w.log.enqueued;
    case _ =>
  }

  // ---- Jobs ----

  /** How often `a` occurs. */
  function Times(s: seq<Addr>, a: Addr): nat {
    if s == [] then 0 else Times(s[..|s| - 1], a) + if s[|s| - 1] == a then 1 else 0
  }

  /** How many workers are looking up `a`. */
  function Holding(workers: seq<Worker>, a: Addr): nat {
    if workers == [] then 0 else (if workers[0] == Busy(a) then 1 else 0) + Holding(workers[1..], a)
  }

  /** Every job taken from the queue is with one worker or finished, once. */
  ghost predicate JobsHold(w: World)
    requires w.Sized()
  {
    forall a :: Times(w.log.taken, a) == Holding(w.workers, a) + Times(w.log.settled, a)
  }

  lemma TimesOneMore(s: seq<Addr>, b: Addr, a: Addr)
    ensures Times(s + [b], a) == Times(s, a) + if b == a then 1 else 0
  {
    assert (s + [b])[..|s|] == s;
  }

  lemma {:induction false} TimesConcat(s: seq<Addr>, t: seq<Addr>, a: Addr)
    ensures Times(s + t, a) == Times(s, a) + Times(t, a)
    decreases |t|
  {
    if t == [] {
      assert s + t == s;
    } else {
      TimesConcat(s, t[..|t| - 1], a);
      assert (s + t)[..|s + t| - 1] == s + t[..|t| - 1];
    }
  }

  lemma {:induction false} HoldingInFlight(workers: seq<Worker>, a: Addr)
    ensures Times(InFlight(workers), a) == Holding(workers, a)
  {
    if workers == [] {
    } else {
      HoldingInFlight(workers[1..], a);
      var first := if workers[0].Busy? then [workers[0].addr] else [];
      TimesConcat(first, InFlight(workers[1..]), a);
      assert first != [] ==> first[..0] == [];
    }
  }

  lemma {:induction false} HoldingUpdate(workers: seq<Worker>, i: nat, k: Worker, a: Addr)
    requires i < |workers|
    ensures Holding(workers[i := k], a) ==
            Holding(workers, a) - (if workers[i] == Busy(a) then 1 else 0) + if k == Busy(a) then 1 else 0
  {
    if i == 0 {
      assert workers[0 := k][1..] == workers[1..];
    } else {
      HoldingUpdate(workers[1..], i - 1, k, a);
      assert workers[i := k][1..] == workers[1..][i - 1 := k];
    }
  }

  lemma JobsStepOf(w: World, e: Step, a: Addr)
    requires w.Sized() && Enabled(w, e)
    requires Times(w.log.taken, a) == Holding(w.workers, a) + Times(w.log.settled, a)
    ensures var v := Apply(w, e);
            Times(v.log.taken, a) == Holding(v.workers, a) + Times(v.log.settled, a)
  {
    if !e.Call? {
      HoldingUpdate(w.workers, e.worker, Apply(w, e).workers[e.worker], a);
    }
    match e
    case TakeJob(i) => TimesOneMore(w.log.taken, w.shared.queue[w.shared.tail], a);
    case StoreAnswer(i, _) => TimesOneMore(w.log.settled, w.workers[i].addr, a);
    case _ =>
  }

  lemma JobsStep(w: World, e: Step)
    requires w.Sized() && JobsHold(w) && Enabled(w, e)
    ensures JobsHold(Apply(w, e))
  {
    forall a
      ensures Times(Apply(w, e).log.taken, a) == Holding(Apply(w, e).workers, a) + Times(Apply(w, e).log.settled, a)
    {
      JobsStepOf(w, e, a);
    }
  }

  ghost predicate NoRepeats(s: seq<Addr>) {
    forall i | 0 <= i < |s| :: s[i] !in s[..i]
  }

  ghost predicate IsSuffix(s: seq<Addr>, t: seq<Addr>) {
    |s| <= |t| && t[|t| - |s|..] == s
  }

  /** What was enqueued since the last flush is still cached, and was enqueued once. */
  ghost predicate FlushHolds(w: World)
    requires w.Sized()
  {
    && (forall a | a in w.log.sinceFlush :: Cached(w.shared.cache, a))
    && NoRepeats(w.log.sinceFlush)
    && IsSuffix(w.log.sinceFlush, w.log.enqueued)
  }

  lemma ExtendSuffix(s: seq<Addr>, t: seq<Addr>, a: Addr)
    requires IsSuffix(s, t) && NoRepeats(s) && a !in s
    ensures IsSuffix(s + [a], t + [a]) && NoRepeats(s + [a])
    ensures IsSuffix([a], t + [a]) && NoRepeats([a]) && IsSuffix([], t)
  {
    assert forall i | 0 <= i < |s| :: (s + [a])[..i] == s[..i];
  }

  /** A call appends to what was enqueued since the flush, or starts it again. */
  lemma LogAfterCall(l: Log, a: Addr, r: Resolved)
    requires NoRepeats(l.sinceFlush) && IsSuffix(l.sinceFlush, l.enqueued) && (r.added ==> a !in l.sinceFlush)
    ensures NoRepeats(LogCall(l, a, r).sinceFlush) && IsSuffix(LogCall(l, a, r).sinceFlush, LogCall(l, a, r).enqueued)
    ensures forall x | x in LogCall(l, a, r).sinceFlush :: (x == a && r.added) || (x in l.sinceFlush && !r.flushed)
  {
    if r.added {
      ExtendSuffix(l.sinceFlush, l.enqueued, a);
    }
  }

  lemma FlushAfterCall(w: World, a: Addr)
    requires w.Sized() && CacheHolds(w) && FlushHolds(w)
    ensures FlushHolds(Apply(w, Call(a)))
  {
    var r := Resolve(w.shared, a);
    assert r.added ==> a !in w.log.sinceFlush;
    LogAfterCall(w.log, a, r);
    CacheAfterResolve(w.shared, w.log.answers, a);
  }

  lemma FlushStep(w: World, e: Step)
    requires w.Sized() && CacheHolds(w) && FlushHolds(w) && Enabled(w, e)
    ensures FlushHolds(Apply(w, e))
  {
    match e
    case Call(a) => FlushAfterCall(w, a);
    case StoreAnswer(i, answer) => CacheAfterStore(w.shared, w.log.answers, w.workers[i].addr, answer);
    case _ =>
  }

  // ---- The bound on the cache ----

  /** Jobs in `jobs` whose address is no longer cached. */
  function Orphans(jobs: seq<Addr>, t: Buckets): nat
    requires |t| == TABLE_SIZE
  {
    if jobs == [] then 0 else (if Cached(t, jobs[0]) then 0 else 1) + Orphans(jobs[1..], t)
  }

  /** Entries plus orphaned jobs never exceed the maximum by more than the jobs there can be. */
  ghost predicate BoundHolds(w: World)
    requires w.Sized()
  {
    w.shared.entries + Orphans(Pending(w.shared), w.shared.cache) + Orphans(InFlight(w.workers), w.shared.cache)
      <= NS_HASH_MAX_ENTRIES + (RESOLVE_QUEUE_LENGTH - 1) + WORKERS
  }

  lemma {:induction false} OrphansSplit(a: seq<Addr>, b: seq<Addr>, t: Buckets)
    requires |t| == TABLE_SIZE
    ensures Orphans(a + b, t) == Orphans(a, t) + Orphans(b, t)
  {
    if a == [] {
      assert a + b == b;
    } else {
      OrphansSplit(a[1..], b, t);
      assert (a + b)[1..] == a[1..] + b;
    }
  }

  lemma {:induction false} OrphansAtMost(jobs: seq<Addr>, t: Buckets)
    requires |t| == TABLE_SIZE
    ensures Orphans(jobs, t) <= |jobs|
  {
    if jobs == [] {
    } else {
      OrphansAtMost(jobs[1..], t);
    }
  }

  /** A larger cache orphans no more jobs. */
  lemma {:induction false} OrphansShrink(jobs: seq<Addr>, t: Buckets, u: Buckets)
    requires |t| == |u| == TABLE_SIZE && forall a | Cached(t, a) :: Cached(u, a)
    ensures Orphans(jobs, u) <= Orphans(jobs, t)
  {
    if jobs == [] {
    } else {
      OrphansShrink(jobs[1..], t, u);
    }
  }

  lemma {:induction false} InFlightAtMost(workers: seq<Worker>)
    ensures |InFlight(workers)| <= |workers|
  {
    if workers == [] {
    } else {
      InFlightAtMost(workers[1..]);
    }
  }

  /** What one worker contributes to the orphans. */
  function OwnOrphan(k: Worker, t: Buckets): nat
    requires |t| == TABLE_SIZE
  {
    if k.Busy? && !Cached(t, k.addr) then 1 else 0
  }

  lemma {:induction false} InFlightUpdate(workers: seq<Worker>, i: nat, k: Worker, t: Buckets)
    requires i < |workers| && |t| == TABLE_SIZE
    ensures Orphans(InFlight(workers[i := k]), t) ==
            Orphans(InFlight(workers), t) - OwnOrphan(workers[i], t) + OwnOrphan(k, t)
  {
    var rest := if i == 0 then workers[1..] else workers[1..][i - 1 := k];
    assert workers[i := k][1..] == rest;
    if i == 0 {
    } else {
      InFlightUpdate(workers[1..], i - 1, k, t);
    }
    var first := if workers[0].Busy? then [workers[0].addr] else [];
    var first' := if workers[i := k][0].Busy? then [workers[i := k][0].addr] else [];
    OrphansSplit(first, InFlight(workers[1..]), t);
    OrphansSplit(first', InFlight(rest), t);
  }

  /** A call that misses leaves at most a full queue of orphans: its own job is cached. */
  lemma QueuedOrphansAfterMiss(s: Shared, a: Addr)
    requires s.Sized() && !Cached(s.cache, a) && Cached(Resolve(s, a).shared.cache, a)
    ensures Orphans(Pending(Resolve(s, a).shared), Resolve(s, a).shared.cache) <= RESOLVE_QUEUE_LENGTH - 1
  {
    var r := Resolve(s, a);
    SegmentLength(s.queue, s.tail, Backlog(s));
    OrphansAtMost(Pending(s), r.shared.cache);
    if r.added {
      PendingAfterEnqueue(s, a);
      assert Pending(r.shared) == Pending(s) + [a];
      OrphansSplit(Pending(s), [a], r.shared.cache);
      assert Orphans([a], r.shared.cache) == 0;
    } else {
      assert Pending(r.shared) == Pending(s);
    }
  }

  lemma BoundAfterCall(w: World, a: Addr)
    requires w.Sized() && CacheHolds(w) && BoundHolds(w)
    ensures BoundHolds(Apply(w, Call(a)))
  {
    if !Cached(w.shared.cache, a) {
      var r := Resolve(w.shared, a);
      CacheAfterResolve(w.shared, w.log.answers, a);
      QueuedOrphansAfterMiss(w.shared, a);
      InFlightAtMost(w.workers);
      OrphansAtMost(InFlight(w.workers), r.shared.cache);
    }
  }

  /** Storing an answer trades the worker's own orphan, if it is one, for an entry. */
  lemma OrphansAfterStore(jobs: seq<Addr>, workers: seq<Worker>, i: nat, t: Buckets, u: Buckets)
    requires |t| == |u| == TABLE_SIZE && i < |workers| && workers[i].Busy?
    requires forall a | Cached(t, a) :: Cached(u, a)
    ensures Orphans(jobs, u) + Orphans(InFlight(workers[i := Awake]), u) + OwnOrphan(workers[i], t) <=
            Orphans(jobs, t) + Orphans(InFlight(workers), t)
  {
    InFlightUpdate(workers, i, Awake, t);
    OrphansShrink(jobs, t, u);
    OrphansShrink(InFlight(workers[i := Awake]), t, u);
  }

  lemma BoundAfterStore(w: World, i: nat, answer: Option<string>)
    requires w.Sized() && CacheHolds(w) && BoundHolds(w) && Enabled(w, StoreAnswer(i, answer))
    ensures BoundHolds(Apply(w, StoreAnswer(i, answer)))
  {
    var r := Store(w.shared, w.workers[i].addr, answer);
    assert forall a | Cached(w.shared.cache, a) :: Cached(r.cache, a) by {
      CacheAfterStore(w.shared, w.log.answers, w.workers[i].addr, answer);
    }
    assert Pending(r) == Pending(w.shared);
    OrphansAfterStore(Pending(w.shared), w.workers, i, w.shared.cache, r.cache);
    assert r.entries <= w.shared.entries + OwnOrphan(w.workers[i], w.shared.cache);
  }

  lemma BoundAfterTake(w: World, i: nat)
    requires w.Sized() && BoundHolds(w) && Enabled(w, TakeJob(i))
    ensures BoundHolds(Apply(w, TakeJob(i)))
  {
    var a := w.shared.queue[w.shared.tail];
    PendingAfterTake(w.shared);
    OrphansSplit([a], Pending(Take(w.shared)), w.shared.cache);
    InFlightUpdate(w.workers, i, Busy(a), w.shared.cache);
  }

  lemma BoundStep(w: World, e: Step)
    requires w.Sized() && CacheHolds(w) && BoundHolds(w) && Enabled(w, e)
    ensures BoundHolds(Apply(w, e))
  {
    match e
    case Call(a) => BoundAfterCall(w, a);
    case Signal(i) => InFlightUpdate(w.workers, i, Awake, w.shared.cache);
    case Start(i) => InFlightUpdate(w.workers, i, Waiting, w.shared.cache);
    case TakeJob(i) => BoundAfterTake(w, i);
    case StoreAnswer(i, answer) => BoundAfterStore(w, i, answer);
    case Wait(i) => InFlightUpdate(w.workers, i, Waiting, w.shared.cache);
    case SpuriousWake(i) => InFlightUpdate(w.workers, i, Awake, w.shared.cache);
  }

  /** Everything that holds in all interleavings. */
  ghost predicate Sound(w: World)
    requires w.Sized()
  {
    CacheHolds(w) && QueueHolds(w) && JobsHold(w) && FlushHolds(w) && BoundHolds(w)
  }

  lemma SoundInit(queue: seq<Addr>, workers: seq<Worker>)
    requires |queue| == RESOLVE_QUEUE_LENGTH && |workers| == WORKERS
    ensures Sound(Init(queue, workers))
  {
    var w := Init(queue, workers);
    EmptyIsWellFormed();
    assert Pending(w.shared) == [];
    forall a
      ensures Times(InFlight(workers), a) == Holding(workers, a)
    {
      HoldingInFlight(workers, a);
    }
    InFlightAtMost(workers);
    OrphansAtMost(InFlight(workers), w.shared.cache);
  }

  lemma SoundStep(w: World, e: Step)
    requires w.Sized() && Sound(w) && Enabled(w, e)
    ensures Sound(Apply(w, e))
  {
    CacheStep(w, e);
    QueueStep(w, e);
    JobsStep(w, e);
    FlushStep(w, e);
    BoundStep(w, e);
  }

  /** In every interleaving of callers, workers, flushes and spurious wake-ups: cached keys are unique,
      the counter is right, every name belongs to its address, the queue is first-in first-out and
      exactly-once, every job taken from it is with one worker or finished, no address is enqueued twice
      between flushes, and the bound holds. */
  lemma {:induction false} AlwaysSound(queue: seq<Addr>, workers: seq<Worker>, es: seq<Step>)
    requires |queue| == RESOLVE_QUEUE_LENGTH && |workers| == WORKERS
    ensures var w := Exec(Init(queue, workers), es);
            w.Some? ==> Sound(w.value)
    decreases |es|
  {
    if es == [] {
      SoundInit(queue, workers);
    } else {
      var front, e := es[..|es| - 1], es[|es| - 1];
      AlwaysSound(queue, workers, front);
      var v := Exec(Init(queue, workers), front);
      if v.Some? && Enabled(v.value, e) {
        SoundStep(v.value, e);
      }
    }
  }

  /** The cache never holds more than NS_HASH_MAX_ENTRIES + 21 names, and at most 19 jobs are queued. */
  lemma CacheNeverOverflows(queue: seq<Addr>, workers: seq<Worker>, es: seq<Step>)
    requires |queue| == RESOLVE_QUEUE_LENGTH && |workers| == WORKERS
    ensures var w := Exec(Init(queue, workers), es);
            w.Some? ==>
              && Count(w.value.shared.cache) == w.value.shared.entries <= 16384 + 21
              && |Pending(w.value.shared)| <= 19
  {
    AlwaysSound(queue, workers, es);
    var w := Exec(Init(queue, workers), es);
    if w.Some? {
      SegmentLength(w.value.shared.queue, w.value.shared.tail, Backlog(w.value.shared));
    }
  }

  // ---- Names stay ----

  /** The step empties the cache, or brings another answer for `a`. */
  predicate Disturbs(w: World, e: Step, a: Addr)
    requires w.Sized() && Enabled(w, e)
  {
    match e
    case Call(b) => !Cached(w.shared.cache, b) && w.shared.entries >= NS_HASH_MAX_ENTRIES
    case StoreAnswer(i, answer) => answer.Some? && w.workers[i].addr == a
    case _ => false
  }

  /** No step of the run does. */
  ghost predicate Undisturbed(from: World, es: seq<Step>, a: Addr)
    requires from.Sized()
  {
    forall i | 0 <= i < |es| ::
      var w := Exec(from, es[..i]);
      w.Some? && Enabled(w.value, es[i]) ==> !Disturbs(w.value, es[i], a)
  }

  lemma NameStaysOnce(w: World, e: Step, a: Addr)
    requires w.Sized() && CacheHolds(w) && Enabled(w, e) && !Disturbs(w, e, a) && Cached(w.shared.cache, a)
    ensures Find(Apply(w, e).shared.cache, a) == Find(w.shared.cache, a)
  {
    match e
    case Call(b) =>
      ResolveIsUpdate(w.shared, w.log.answers, b, a);
      ResolveAnswers(w.shared, b);
    case StoreAnswer(i, answer) => StoreIsUpdate(w.shared, w.log.answers, w.workers[i].addr, answer, a);
    case _ =>
  }

  /** A cached name stays through any steps that neither flush the cache nor answer for its address. */
  lemma {:induction false} NameStays(from: World, es: seq<Step>, a: Addr)
    requires from.Sized() && CacheHolds(from) && Cached(from.shared.cache, a) && Undisturbed(from, es, a)
    ensures var w := Exec(from, es);
            w.Some? ==> CacheHolds(w.value) && Find(w.value.shared.cache, a) == Find(from.shared.cache, a)
    decreases |es|
  {
    if es == [] {
    } else {
      var front, e := es[..|es| - 1], es[|es| - 1];
      assert forall i | 0 <= i < |front| :: front[..i] == es[..i] && front[i] == es[i];
      NameStays(from, front, a);
      var v := Exec(from, front);
      if v.Some? && Enabled(v.value, e) {
        NameStaysOnce(v.value, e, a);
        CacheStep(v.value, e);
      }
    }
  }

  /** What a lookup found is what callers get: whenever a worker stores an answer for its address, every
      later call for that address returns it, until the cache is flushed or the address answered anew. */
  lemma AnswerIsReturned(queue: seq<Addr>, workers: seq<Worker>, es: seq<Step>, i: nat, text: string, more: seq<Step>)
    requires |queue| == RESOLVE_QUEUE_LENGTH && |workers| == WORKERS
    requires var w := Exec(Init(queue, workers), es);
             && w.Some? && i < WORKERS && w.value.workers[i].Busy?
             && var stored := Apply(w.value, StoreAnswer(i, Some(text)));
             Exec(stored, more).Some? && Undisturbed(stored, more, w.value.workers[i].addr)
    ensures var w := Exec(Init(queue, workers), es).value;
            var a := w.workers[i].addr;
            var later := Exec(Apply(w, StoreAnswer(i, Some(text))), more).value;
            Resolve(later.shared, a).name == Answer(text) && Resolve(later.shared, a).shared == later.shared
  {
    var w := Exec(Init(queue, workers), es).value;
    var a := w.workers[i].addr;
    var stored := Apply(w, StoreAnswer(i, Some(text)));
    AlwaysSound(queue, workers, es);
    CacheStep(w, StoreAnswer(i, Some(text)));
    StoreIsUpdate(w.shared, w.log.answers, a, Some(text), a);
    NameStays(stored, more, a);
    ResolveAnswers(Exec(stored, more).value.shared, a);
  }

  // ---- Wake-ups ----

  predicate IsRunning(k: Worker) {
    k.Awake? || k.Busy?
  }

  predicate SomeoneRuns(workers: seq<Worker>) {
    exists i :: 0 <= i < |workers| && IsRunning(workers[i])
  }

  predicate SomeoneStarted(workers: seq<Worker>) {
    exists i :: 0 <= i < |workers| && !workers[i].Starting?
  }

  /** Queued jobs have somebody to take care of them: a worker that is up, or a signal on its way. */
  predicate Attended(w: World) {
    w.shared.head == w.shared.tail || SomeoneRuns(w.workers) || w.unsignalled > 0
  }

  lemma AttendedStep(w: World, e: Step)
    requires w.Sized() && Enabled(w, e) && SomeoneStarted(w.workers) && Attended(w)
    ensures SomeoneStarted(Apply(w, e).workers) && Attended(Apply(w, e))
  {
    var v := Apply(w, e);
    if !e.Call? {
      var i := e.worker;
      assert forall j | 0 <= j < |w.workers| && j != i :: v.workers[j] == w.workers[j];
      if e.Signal? && !SomeoneWaits(w) {
        var j :| 0 <= j < |w.workers| && !w.workers[j].Starting?;
        assert IsRunning(v.workers[j]);
      } else {
        assert !v.workers[i].Starting?;
        assert e.Start? || e.Wait? || IsRunning(v.workers[i]);
        if e.Start? && SomeoneRuns(w.workers) {
          var j :| 0 <= j < |w.workers| && IsRunning(w.workers[j]);
          assert IsRunning(v.workers[j]);
        }
      }
    }
  }

  lemma {:induction false} AttendedRun(from: World, es: seq<Step>)
    requires from.Sized() && SomeoneStarted(from.workers) && Attended(from)
    ensures var w := Exec(from, es);
            w.Some? ==> SomeoneStarted(w.value.workers) && Attended(w.value)
    decreases |es|
  {
    if es == [] {
    } else {
      var front, e := es[..|es| - 1], es[|es| - 1];
      AttendedRun(from, front);
      var v := Exec(from, front);
      if v.Some? && Enabled(v.value, e) {
        AttendedStep(v.value, e);
      }
    }
  }

  /** The first call of all enqueues, unless its address stays numeric. */
  lemma FirstCall(queue: seq<Addr>, a: Addr)
    requires |queue| == RESOLVE_QUEUE_LENGTH && !StaysNumeric(a)
    ensures var w := Apply(Init(queue, [Starting, Starting]), Call(a));
            w.workers == [Starting, Starting] && w.unsignalled == 1 && w.shared.head != w.shared.tail
  {
    EmptyIsWellFormed();
  }

  /** A signal that nobody waits for only uses itself up. */
  lemma NobodyWoken(w: World)
    requires w.Sized() && w.workers == [Starting, Starting] && w.unsignalled == 1
    ensures Enabled(w, Signal(0)) && Apply(w, Signal(0)) == w.(unsignalled := 0)
  {
  }

  lemma ExecExtends(from: World, es: seq<Step>, e: Step)
    requires from.Sized() && Exec(from, es).Some? && Enabled(Exec(from, es).value, e)
    ensures Exec(from, es + [e]) == Some(Apply(Exec(from, es).value, e))
  {
    assert (es + [e])[..|es + [e]| - 1] == es;
  }

  lemma Strand(from: World, es: seq<Step>) returns (fs: seq<Step>)
    requires from.Sized() && Exec(from, es).Some?
    requires var w := Exec(from, es).value;
             w.workers == [Starting, Starting] && w.unsignalled == 1 && w.shared.head != w.shared.tail
    ensures Exec(from, fs).Some? && !Attended(Exec(from, fs).value)
  {
    var w := Exec(from, es).value;
    NobodyWoken(w);
    ExecExtends(from, es, Signal(0));
    fs := es + [Signal(0)];
    ExecExtends(from, fs, Start(0));
    fs := fs + [Start(0)];
    assert Exec(from, fs).value.workers == [Waiting, Starting];
    ExecExtends(from, fs, Start(1));
    fs := fs + [Start(1)];
    assert Exec(from, fs).value.workers == [Waiting, Waiting];
  }

  /** A caller that beats both workers to their first wait: its signal reaches nobody, both workers then
      wait without looking at the queue, and the job is stranded. */
  lemma LostWakeup(queue: seq<Addr>) returns (es: seq<Step>)
    requires |queue| == RESOLVE_QUEUE_LENGTH
    ensures var w := Exec(Init(queue, [Starting, Starting]), es);
            w.Some? && !Attended(w.value)
  {
    var w0 := Init(queue, [Starting, Starting]);
    FirstCall(queue, Addr(false, 1));
    ExecExtends(w0, [], Call(Addr(false, 1)));
    es := Strand(w0, [] + [Call(Addr(false, 1))]);
  }

  /** From start-up, no wake-up is ever lost exactly when at least one worker had reached its first wait
      before the first call. */
  lemma NoLostWakeupExactly(queue: seq<Addr>, workers: seq<Worker>)
    requires |queue| == RESOLVE_QUEUE_LENGTH && |workers| == WORKERS
    requires forall i | 0 <= i < |workers| :: workers[i].Starting? || workers[i].Waiting?
    ensures (forall es: seq<Step> ::
               var w := Exec(Init(queue, workers), es);
               w.Some? ==> Attended(w.value)) <==> SomeoneStarted(workers)
  {
    if SomeoneStarted(workers) {
      forall es: seq<Step>
        ensures var w := Exec(Init(queue, workers), es); w.Some? ==> Attended(w.value)
      {
        AttendedRun(Init(queue, workers), es);
      }
    } else {
      assert workers == [Starting, Starting];
      var es := LostWakeup(queue);
      var w := Exec(Init(queue, workers), es);
      assert w.Some? && !Attended(w.value);
    }
  }
}
