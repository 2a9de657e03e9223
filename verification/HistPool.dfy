/** The record pool of src/entry/iftop.c: `history_create` and `history_free`.

    The free list is threaded through the first word of the free records themselves, which is
    `recv[0]`, so a recycled record is full of stale counters and one stray pointer. */
module HistPool {
  import opened Ledger
  import opened Prelude
  import opened PoolTable

  const HISTORY_POOL_BLOCK := 256

  /** `*(history_type **)hist = p` */
  function WithLink(h: Hist, p: int): Hist
    requires h.Sized()
  {
    h.(recv := h.recv[0 := p])
  }

  ghost predicate AllSized(recs: seq<Hist>) {
    forall r | 0 <= r < |recs| :: recs[r].Sized()
  }

  /** Following the links from `p` visits exactly `c` and then ends. */
  ghost predicate LinkedRecords(recs: seq<Hist>, p: int, c: seq<int>) {
    && p == At(c, 0)
    && AllSized(recs)
    && (forall i | 0 <= i < |c| :: 0 <= c[i] < |recs|)
    && (forall i {:trigger recs[c[i]]} | 0 <= i < |c| :: recs[c[i]].recv[0] == At(c, i + 1))
  }

  /** Records in use before, other than `except`, are still in use and unchanged. */
  ghost predicate KeepsInUse<R>(recs: seq<R>, free: seq<int>, recs': seq<R>, free': seq<int>, except: int) {
    forall r | 0 <= r < |recs| && r !in free && r != except ::
      r < |recs'| && r !in free' && recs'[r] == recs[r]
  }

  lemma TakeFirst(recs: seq<Hist>, p: int, c: seq<int>)
    requires LinkedRecords(recs, p, c) && NoDup(c) && p != NULL
    ensures c != [] && c[0] == p
    ensures LinkedRecords(recs[p := ZeroHist()], recs[p].recv[0], c[1..])
    ensures p !in c[1..] && forall x | x != p :: x in c <==> x in c[1..]
  {
    NoDupIsDistinct(c);
    assert c == [p] + c[1..];
    assert forall i | 0 <= i < |c[1..]| :: c[1..][i] == c[i + 1];
  }

  lemma PutFirst(recs: seq<Hist>, p: int, c: seq<int>, h: int)
    requires LinkedRecords(recs, p, c) && 0 <= h < |recs| && h !in c
    ensures LinkedRecords(recs[h := WithLink(recs[h], p)], h, [h] + c)
  {
    var c' := [h] + c;
    var recs' := recs[h := WithLink(recs[h], p)];
    forall i | 0 <= i < |c'|
      ensures recs'[c'[i]].recv[0] == At(c', i + 1)
    {
      if i > 0 {
        assert c'[i] == c[i - 1] && c[i - 1] in c;
      }
    }
  }

  class Pool {
    var recs: seq<Hist>
    var freeList: int
    var blocks: nat
    ghost var free: seq<int>

    ghost predicate Valid()
      reads this
    {
      && LinkedRecords(recs, freeList, free)
      && NoDup(free)
      && |recs| == HISTORY_POOL_BLOCK * blocks
    }

    /** A record that is handed out. */
    ghost predicate InUse(r: int)
      reads this
    {
      0 <= r < |recs| && r !in free
    }

    constructor ()
      ensures Valid() && recs == [] && free == []
    {
      recs, freeList, blocks, free := [], NULL, 0, [];
    }

    /** `history_create`: a zeroed record, whatever the memory held before. */
    method Create() returns (h: int)
      requires Valid()
      modifies this
      ensures Valid() && InUse(h) && !old(InUse(h)) && recs[h] == ZeroHist()
      ensures KeepsInUse(old(recs), old(free), recs, free, NULL)
      ensures |recs| - |free| == old(|recs| - |free|) + 1
    {
      if freeList != NULL {
        TakeFirst(recs, freeList, free);
        h := freeList;
        freeList := recs[h].recv[0];
        free := free[1..];
      } else {
        h := AddBlock();
      }
      recs := recs[h := ZeroHist()];
    }

    /** Appends a block of uninitialised records, threads items 1 to 255 and hands out item 0. */
    method AddBlock() returns (base: int)
      requires Valid() && freeList == NULL
      modifies this
      ensures Valid() && base == |old(recs)| && old(recs) <= recs
      ensures |recs| == base + HISTORY_POOL_BLOCK && |free| == HISTORY_POOL_BLOCK - 1
      ensures old(free) == [] && forall r | r in free :: base < r
    {
      base := |recs|;
      assert ZeroHist().Sized();
      var junk: Hist :| junk.Sized();
      ghost var was := recs;
      recs := recs + seq(HISTORY_POOL_BLOCK, _ => junk);
      assert AllSized(was) && forall r | 0 <= r < |was| :: recs[r] == was[r];
      var i := 1;
      while i < HISTORY_POOL_BLOCK - 1
        invariant 1 <= i <= HISTORY_POOL_BLOCK - 1
        invariant |recs| == base + HISTORY_POOL_BLOCK && recs[..base] == old(recs)
        invariant AllSized(recs)
        invariant forall r | base < r < base + i :: recs[r].recv[0] == r + 1
        invariant free == old(free) && blocks == old(blocks)
      {
        recs := recs[base + i := WithLink(recs[base + i], base + i + 1)];
        i := i + 1;
      }
      recs := recs[base + HISTORY_POOL_BLOCK - 1 := WithLink(recs[base + HISTORY_POOL_BLOCK - 1], NULL)];
      assert recs[..base] == old(recs);
      free := seq(HISTORY_POOL_BLOCK - 1, j => base + 1 + j);
      freeList, blocks := base + 1, blocks + 1;
    }

    /** `history_free` */
    method Free(h: int)
      requires Valid() && InUse(h)
      modifies this`recs, this`freeList, this`free
      ensures Valid() && !InUse(h)
      ensures KeepsInUse(old(recs), old(free), recs, free, h)
      ensures |recs| - |free| == old(|recs| - |free|) - 1
    {
      PutFirst(recs, freeList, free, h);
      recs := recs[h := WithLink(recs[h], freeList)];
      freeList := h;
      free := [h] + free;
    }

    /** An in-place update of a record in use. */
    method Store(h: int, v: Hist)
      requires Valid() && InUse(h) && v.Sized()
      modifies this`recs
      ensures Valid() && recs == old(recs)[h := v]
    {
      recs := recs[h := v];
    }
  }
}
