/** The bound on the name cache is exact: an interleaving that reaches it. */
module ResolverBound {
  import opened Prelude
  import opened NameCache
  import opened Resolver
  import opened ResolverProtocol

  const MAX := NS_HASH_MAX_ENTRIES
  const ROOM := RESOLVE_QUEUE_LENGTH - 1

  function V4(x: nat): Addr {
    Addr(false, x)
  }

  /** `V4(c)` to `V4(c + n - 1)` */
  function Range(c: nat, n: nat): seq<Addr> {
    seq(n, i requires 0 <= i => V4(c + i))
  }

  /** `n` names cached, none of them of an address below `V4(lost)` or from `V4(c)` on; `jobs` queued. */
  ghost predicate Stage(w: World, lost: nat, c: nat, n: nat, workers: seq<Worker>, jobs: seq<Addr>)
    requires w.Sized()
  {
    forall g | Opened(w.shared.cache, g) ::
      && CacheHolds(w) && w.workers == workers && Pending(w.shared) == jobs && w.shared.entries == n
      && forall x: nat | x < lost || x >= c :: !Cached(w.shared.cache, V4(x))
  }

  function Enqueued(jobs: seq<Addr>, a: Addr): seq<Addr> {
    if |jobs| < ROOM then jobs + [a] else jobs
  }

  /** The queue after calls for `V4(c)`, `V4(c + 1)`, and so on: it fills up and then stays. */
  function Queued(jobs: seq<Addr>, c: nat, k: nat): seq<Addr> {
    if k == 0 then jobs else Enqueued(Queued(jobs, c, k - 1), V4(c + k - 1))
  }

  /** Some interleaving leads from one world to the other. */
  ghost predicate Leads(from: World, w: World)
    requires from.Sized()
  {
    w.Sized() && forall g | Opened(from, g) :: exists es :: Exec(from, es) == Some(w)
  }

  lemma Extend(from: World, w: World, e: Step) returns (v: World)
    requires from.Sized() && Leads(from, w) && Enabled(w, e)
    ensures v == Apply(w, e) && Leads(from, v)
  {
    assert Opened(from, 0);
    v := Apply(w, e);
    var es :| Exec(from, es) == Some(w);
    ExecExtends(from, es, e);
  }

  lemma EntriesAfterMiss(s: Shared, a: Addr)
    requires s.Sized() && !Cached(s.cache, a)
    ensures Resolve(s, a).shared.entries == (if s.entries >= MAX then 0 else s.entries) + 1
    ensures Resolve(s, a).flushed <==> s.entries >= MAX
  {
  }

  /** A call for a fresh address.  If the cache was full, every earlier address is lost. */
  lemma CallOnce(w: World, lost: nat, lost': nat, c: nat, n: nat, workers: seq<Worker>, jobs: seq<Addr>)
    requires w.Sized() && Stage(w, lost, c, n, workers, jobs)
    requires lost' <= c && (lost' == lost || n >= MAX)
    ensures var v := Apply(w, Call(V4(c)));
            && Stage(v, lost', c + 1, (if n >= MAX then 0 else n) + 1, workers, Enqueued(jobs, V4(c)))
            && v.unsignalled == w.unsignalled + (if |jobs| < ROOM then 1 else 0)
  {
    assert Opened(w.shared.cache, 0);
    CacheAfterResolve(w.shared, w.log.answers, V4(c));
    JobsAfterResolve(w.shared, V4(c));
    EntriesAfterMiss(w.shared, V4(c));
  }

  lemma NextCall(from: World, w: World, lost: nat, c: nat, n: nat, workers: seq<Worker>, jobs: seq<Addr>) returns (v: World)
    requires from.Sized() && Leads(from, w) && Stage(w, lost, c, n, workers, jobs) && lost <= c && n < MAX
    ensures Leads(from, v) && Stage(v, lost, c + 1, n + 1, workers, Enqueued(jobs, V4(c)))
  {
    CallOnce(w, lost, lost, c, n, workers, jobs);
    v := Extend(from, w, Call(V4(c)));
  }

  /** Calls for `V4(c)` to `V4(c + k - 1)` that stay below the maximum. */
  lemma {:induction false} Calls(from: World, w: World, lost: nat, c: nat, n: nat, workers: seq<Worker>,
                                 jobs: seq<Addr>, k: nat)
    returns (v: World)
    requires from.Sized() && Leads(from, w) && Stage(w, lost, c, n, workers, jobs)
    requires lost <= c && n + k <= MAX
    ensures Leads(from, v) && Stage(v, lost, c + k, n + k, workers, Queued(jobs, c, k))
    decreases k
  {
    if k == 0 {
      v := w;
    } else {
      var before := Calls(from, w, lost, c, n, workers, jobs, k - 1);
      v := NextCall(from, before, lost, c + k - 1, n + k - 1, workers, Queued(jobs, c, k - 1));
    }
  }

  lemma StageAfterSignal(w: World, c: nat, n: nat, workers: seq<Worker>, jobs: seq<Addr>, i: nat)
    requires w.Sized() && Stage(w, 0, c, n, workers, jobs)
    requires w.unsignalled > 0 && i < WORKERS && |workers| == WORKERS && workers[i] == Waiting
    ensures Enabled(w, Signal(i)) && Stage(Apply(w, Signal(i)), 0, c, n, workers[i := Awake], jobs)
  {
    assert Opened(w.shared.cache, 0);
    assert w.workers[i].Waiting?;
  }

  lemma StageAfterTake(w: World, c: nat, n: nat, workers: seq<Worker>, a: Addr, i: nat)
    requires w.Sized() && Stage(w, 0, c, n, workers, [a])
    requires i < WORKERS && |workers| == WORKERS && workers[i] == Awake
    ensures Enabled(w, TakeJob(i)) && Stage(Apply(w, TakeJob(i)), 0, c, n, workers[i := Busy(a)], [])
  {
    assert Opened(w.shared.cache, 0);
    var s := w.shared;
    PendingAfterTake(s);
    assert Pending(Take(s)) == ([s.queue[s.tail]] + Pending(Take(s)))[1..] == [a][1..];
    assert s.queue[s.tail] == ([s.queue[s.tail]] + Pending(Take(s)))[0] == [a][0];
  }

  /** A call, its signal, and the worker that wakes up and takes the job. */
  lemma HandOver(from: World, w: World, c: nat, n: nat, workers: seq<Worker>, i: nat) returns (v: World)
    requires from.Sized() && Leads(from, w) && Stage(w, 0, c, n, workers, [])
    requires n < MAX && i < WORKERS && |workers| == WORKERS && workers[i] == Waiting
    ensures Leads(from, v) && Stage(v, 0, c + 1, n + 1, workers[i := Busy(V4(c))], [])
  {
    CallOnce(w, 0, 0, c, n, workers, []);
    assert Enqueued([], V4(c)) == [V4(c)];
    v := Extend(from, w, Call(V4(c)));
    StageAfterSignal(v, c + 1, n + 1, workers, [V4(c)], i);
    v := Extend(from, v, Signal(i));
    StageAfterTake(v, c + 1, n + 1, workers[i := Awake], V4(c), i);
    v := Extend(from, v, TakeJob(i));
    assert workers[i := Awake][i := Busy(V4(c))] == workers[i := Busy(V4(c))];
  }

  /** Jobs that are distinct and none of them cached. */
  ghost predicate AllOrphans(jobs: seq<Addr>, t: Buckets)
    requires |t| == TABLE_SIZE
  {
    NoRepeats(jobs) && forall a | a in jobs :: !Cached(t, a)
  }

  /** A worker stores an answer for an address that is no longer cached. */
  lemma StoreOrphan(w: World, i: nat, text: string)
    requires w.Sized() && CacheHolds(w) && i < WORKERS && w.workers[i].Busy? && !Cached(w.shared.cache, w.workers[i].addr)
    ensures var v := Apply(w, StoreAnswer(i, Some(text)));
            && CacheHolds(v) && v.workers == w.workers[i := Awake] && Pending(v.shared) == Pending(w.shared)
            && v.shared.entries == w.shared.entries + 1
            && (forall x :: Cached(v.shared.cache, x) <==> Cached(w.shared.cache, x) || x == w.workers[i].addr)
  {
    CacheAfterStore(w.shared, w.log.answers, w.workers[i].addr, Some(text));
  }

  lemma DropFirst(jobs: seq<Addr>)
    requires jobs != [] && NoRepeats(jobs)
    ensures NoRepeats(jobs[1..]) && jobs[0] !in jobs[1..]
  {
    forall i | 0 <= i < |jobs[1..]|
      ensures jobs[1..][i] !in jobs[1..][..i] && jobs[1..][i] != jobs[0]
    {
      assert jobs[1..][..i] == jobs[..i + 1][1..];
      assert jobs[..i + 1][0] == jobs[0];
    }
  }

  /** Worker 0 answers its orphaned job and every queued one: an entry more for each. */
  lemma {:induction false} Drain(from: World, w: World, jobs: seq<Addr>) returns (v: World)
    requires from.Sized() && Leads(from, w)
    requires CacheHolds(w) && w.workers[0].Busy? && Pending(w.shared) == jobs
    requires AllOrphans([w.workers[0].addr] + jobs, w.shared.cache)
    ensures Leads(from, v) && CacheHolds(v) && v.shared.entries == w.shared.entries + 1 + |jobs|
    ensures v.workers[1] == w.workers[1]
    ensures forall x | !Cached(w.shared.cache, x) && x !in [w.workers[0].addr] + jobs :: !Cached(v.shared.cache, x)
    decreases |jobs|
  {
    StoreOrphan(w, 0, "");
    v := Extend(from, w, StoreAnswer(0, Some("")));
    if jobs == [] {
    } else {
      var all := [w.workers[0].addr] + jobs;
      DropFirst(all);
      assert all[1..] == jobs;
      PendingAfterTake(v.shared);
      v := Extend(from, v, TakeJob(0));
      assert [v.workers[0].addr] + jobs[1..] == jobs;
      v := Drain(from, v, jobs[1..]);
    }
  }

  lemma {:induction false} QueuedIsRange(c: nat, k: nat)
    ensures Queued([], c, k) == Range(c, if k < ROOM then k else ROOM)
  {
    if k == 0 {
    } else {
      QueuedIsRange(c, k - 1);
      if k <= ROOM {
        assert Range(c, k - 1) + [V4(c + k - 1)] == Range(c, k);
      }
    }
  }

  lemma {:induction false} FullQueueStays(jobs: seq<Addr>, c: nat, k: nat)
    requires |jobs| == ROOM
    ensures Queued(jobs, c, k) == jobs
  {
    if k == 0 {
    } else {
      FullQueueStays(jobs, c, k - 1);
    }
  }

  lemma FirstStage(queue: seq<Addr>)
    requires |queue| == RESOLVE_QUEUE_LENGTH
    ensures Stage(Init(queue, [Waiting, Waiting]), 0, 0, 0, [Waiting, Waiting], [])
  {
    SoundInit(queue, [Waiting, Waiting]);
    EmptyIsWellFormed();
  }

  lemma BothBusy(queue: seq<Addr>) returns (w: World)
    requires |queue| == RESOLVE_QUEUE_LENGTH
    ensures Leads(Init(queue, [Waiting, Waiting]), w) && Stage(w, 0, 2, 2, [Busy(V4(0)), Busy(V4(1))], [])
  {
    var w0 := Init(queue, [Waiting, Waiting]);
    FirstStage(queue);
    assert Exec(w0, []) == Some(w0);
    w := HandOver(w0, w0, 0, 0, [Waiting, Waiting], 0);
    assert [Waiting, Waiting][0 := Busy(V4(0))] == [Busy(V4(0)), Waiting];
    w := HandOver(w0, w, 1, 1, [Busy(V4(0)), Waiting], 1);
    assert [Busy(V4(0)), Waiting][1 := Busy(V4(1))] == [Busy(V4(0)), Busy(V4(1))];
  }

  /** Both workers busy with `V4(0)` and `V4(1)`, a full queue behind them, and a full cache. */
  lemma FillUp(queue: seq<Addr>) returns (w: World)
    requires |queue| == RESOLVE_QUEUE_LENGTH
    ensures Leads(Init(queue, [Waiting, Waiting]), w)
    ensures Stage(w, 0, MAX, MAX, [Busy(V4(0)), Busy(V4(1))], Range(2, ROOM))
  {
    w := BothBusy(queue);
    w := Calls(Init(queue, [Waiting, Waiting]), w, 0, 2, 2, [Busy(V4(0)), Busy(V4(1))], [], MAX - 2);
    QueuedIsRange(2, MAX - 2);
  }

  /** Fills the cache again after the flush that orphans all jobs. */
  lemma FlushAndRefill(queue: seq<Addr>) returns (w: World)
    requires |queue| == RESOLVE_QUEUE_LENGTH
    ensures Leads(Init(queue, [Waiting, Waiting]), w)
    ensures Stage(w, 21, 2 * MAX, MAX, [Busy(V4(0)), Busy(V4(1))], Range(2, ROOM))
  {
    var w0 := Init(queue, [Waiting, Waiting]);
    var workers, jobs := [Busy(V4(0)), Busy(V4(1))], Range(2, ROOM);
    w := FillUp(queue);
    CallOnce(w, 0, 21, MAX, MAX, workers, jobs);
    w := Extend(w0, w, Call(V4(MAX)));
    w := Calls(w0, w, 21, MAX + 1, 1, workers, jobs, MAX - 1);
    FullQueueStays(jobs, MAX + 1, MAX - 1);
  }

  lemma JobsAreOrphans(w: World)
    requires w.Sized() && Stage(w, 21, 2 * MAX, MAX, [Busy(V4(0)), Busy(V4(1))], Range(2, ROOM))
    ensures CacheHolds(w) && w.workers == [Busy(V4(0)), Busy(V4(1))] && Pending(w.shared) == Range(2, ROOM)
    ensures w.shared.entries == MAX && |Range(2, ROOM)| == ROOM
    ensures AllOrphans([V4(0)] + Range(2, ROOM), w.shared.cache)
    ensures !Cached(w.shared.cache, V4(1)) && V4(1) !in [V4(0)] + Range(2, ROOM)
  {
    assert Opened(w.shared.cache, 0);
    var all := [V4(0)] + Range(2, ROOM);
    assert forall i | 0 < i < |all| :: all[i] == V4(i + 1);
  }

  /** Some interleaving reaches exactly NS_HASH_MAX_ENTRIES + 21 cached names. */
  lemma BoundIsReached(queue: seq<Addr>) returns (es: seq<Step>)
    requires |queue| == RESOLVE_QUEUE_LENGTH
    ensures var w := Exec(Init(queue, [Waiting, Waiting]), es);
            w.Some? && w.value.shared.entries == 16384 + 21
  {
    var w0 := Init(queue, [Waiting, Waiting]);
    var w := FlushAndRefill(queue);
    JobsAreOrphans(w);
    w := Drain(w0, w, Range(2, ROOM));
    StoreOrphan(w, 1, "");
    w := Extend(w0, w, StoreAnswer(1, Some("")));
    assert Opened(w0, 0);
    es :| Exec(w0, es) == Some(w);
  }
}
