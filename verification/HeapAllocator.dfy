/** CLR_RT_ExecutionEngine::ExtractHeapBlocks: scan the clusters, collect once, scan again. */
module HeapAllocator {
  import opened HeapBlocks
  import opened ClusterInvariant
  import opened HeapCluster
  import opened ClusterAllocation
  import opened CompactionSpec
  import opened EventCache
  import opened Finalization
  import opened Collection
  import opened FullCollection

  /** No cluster from index i up to j has a large enough free block. */
  ghost predicate NoneFits(m: Memory, fls: seq<seq<int>>, i: int, j: int, length: nat)
  {
    forall c :: 0 <= c < |fls| && i <= c < j ==> NoFit(m, fls[c], length)
  }

  datatype Request = Request(dt: DataType, flags: Flags, initializeToZero: bool, noGc: bool, length: nat)

  /** The block res was taken from cluster c of heap (m, fls). */
  ghost predicate TakenFrom(m: Memory, m': Memory, cl: seq<Range>, fls: seq<seq<int>>, fls': seq<seq<int>>, c: int,
                            q: Request, res: int)
  {
    && 0 <= c < |cl| == |fls| == |fls'| && fls' == fls[c := fls'[c]]
    && Allocated(m, m', cl[c], q.length, res) && OnlyInside(m, m', cl[c])
    && 0 <= res < |m'| && m'[res].dt == q.dt && m'[res].flags == q.flags
    && FirstFit(m, fls[c], q.length, q.flags.event, res)
    && (q.initializeToZero ==> Zeroed(m', res, q.length))
  }

  /** Which cluster serves a request: for events the last that can; otherwise the last one used, if it
      can, or else the first that can. */
  ghost predicate Preferred(m: Memory, fls: seq<seq<int>>, last: int, c: int, q: Request)
  {
    if q.flags.event then NoneFits(m, fls, c + 1, |fls|, q.length)
    else c == last || ((0 <= last < |fls| ==> NoFit(m, fls[last], q.length)) && NoneFits(m, fls, 0, c, q.length))
  }

  /** One attempt at one cluster. */
  method Try(h: Heap, c: nat, q: Request) returns (res: int)
    requires h.Valid() && c < |h.clusters| && 1 <= q.length && !q.dt.FreeBlock?
    modifies h`freeLists, h.mem
    ensures h.Valid()
    ensures res == NULL ==> h.freeLists == old(h.freeLists) && h.mem[..] == old(h.mem[..])
    ensures res == NULL <==> NoFit(old(h.mem[..]), old(h.freeLists[c]), q.length)
    ensures res != NULL ==> TakenFrom(old(h.mem[..]), h.mem[..], h.clusters, old(h.freeLists), h.freeLists, c, q, res)
  {
    hide FirstFit, Zeroed, ClusterOk, NoFit, Live, Unchanged, FreeSize;
    res := ExtractBlocks(h, c, q.dt, q.flags, q.initializeToZero, q.length);
  }

  /** One scan of all clusters; `last` is the cluster used last, -1 for none. */
  method Scan(h: Heap, last: int, q: Request) returns (res: int, c: int)
    requires h.Valid() && last < |h.clusters| && 1 <= q.length && !q.dt.FreeBlock?
    modifies h`freeLists, h.mem
    ensures h.Valid()
    ensures res == NULL ==> h.freeLists == old(h.freeLists) && h.mem[..] == old(h.mem[..])
    ensures res == NULL <==> NoneFits(old(h.mem[..]), old(h.freeLists), 0, |h.clusters|, q.length)
    ensures res != NULL ==>
      && TakenFrom(old(h.mem[..]), h.mem[..], h.clusters, old(h.freeLists), h.freeLists, c, q, res)
      && Preferred(old(h.mem[..]), old(h.freeLists), last, c, q)
  {
    hide ClusterOk, TakenFrom, NoFit;
    ghost var m, fls := h.mem[..], h.freeLists;
    res, c := NULL, -1;
    if q.flags.event {
      c := |h.clusters| - 1;
      while c >= 0
        invariant -1 <= c < |h.clusters| && h.Valid() && h.freeLists == fls && h.mem[..] == m && res == NULL
        invariant NoneFits(m, fls, c + 1, |fls|, q.length)
      {
        res := Try(h, c, q);
        if res != NULL { return; }
        c := c - 1;
      }
    } else {
      if last >= 0 {
        c := last;
        res := Try(h, c, q);
        if res != NULL { return; }
      }
      c := 0;
      while c < |h.clusters|
        invariant 0 <= c <= |h.clusters| && h.Valid() && h.freeLists == fls && h.mem[..] == m && res == NULL
        invariant NoneFits(m, fls, 0, c, q.length)
      {
        res := Try(h, c, q);
        if res != NULL { return; }
        c := c + 1;
      }
    }
  }

  /** What the heap was when it was scanned for the last time. */
  datatype Snapshot = Snapshot(m: Memory, fls: seq<seq<int>>, last: int)

  class Allocator {
    const gc: Collector
    const cache: Cache
    var lastHcUsed: int
    var compactionPending: bool

    constructor (gc: Collector, cache: Cache)
      requires cache.heap == gc.marker.heap && cache.Valid() && gc.marker.markStack.Length >= 2
      ensures this.gc == gc && this.cache == cache && Valid() && lastHcUsed == -1 && !compactionPending
    {
      this.gc, this.cache := gc, cache;
      lastHcUsed, compactionPending := -1, false;
    }

    ghost predicate Valid()
      reads this, gc, gc.marker, cache, cache.heap, cache.heap.mem
    {
      && cache.heap == gc.marker.heap && cache.Valid() && gc.marker.markStack.Length >= 2
      && lastHcUsed < |cache.heap.clusters|
    }

    /** `seen` is the heap the request was served from, `cleaned` the one the collector started from. */
    method ExtractHeapBlocks(q: Request, roots: seq<Root>)
      returns (res: int, ghost collected: bool, ghost seen: Snapshot, ghost cleaned: Memory)
      requires Valid() && 1 <= q.length && !q.dt.FreeBlock?
      requires Collectable(gc.marker.heap.mem[..], gc.marker.heap.clusters,
               roots, gc.finalizersAlive, gc.finalizersPending)
      modifies this, gc, cache, gc.marker.heap`freeLists, gc.marker.heap.mem, gc.marker.markStack, gc.marker`top
      modifies gc.marker`outOfStackSpace
      ensures Valid()
      // The request is served from the heap as found, or, if nothing in it fits, from the collected heap.
      ensures collected <==>
        !q.noGc && NoneFits(old(cache.heap.mem[..]), old(cache.heap.freeLists), 0, |cache.heap.clusters|, q.length)
      ensures !collected ==>
        seen == old(Snapshot(cache.heap.mem[..], cache.heap.freeLists, lastHcUsed)) && cache.events == old(cache.events)
      ensures collected ==>
        var m0, cl := old(cache.heap.mem[..]), cache.heap.clusters;
        var rs := Objects(old(gc.finalizersPending)) + AllRoots(m0, roots) + Objects(old(gc.finalizersAlive));
        && seen.last == -1 && ClustersOk(seen.m, cl, seen.fls) && Cached(cache.events) == {}
        && FullyCollected(m0, cleaned, seen.m, cl, rs, old(Cached(cache.events)))
      // It fails exactly when nothing fits there, and then changes nothing further.
      ensures res == NULL <==> NoneFits(seen.m, seen.fls, 0, |cache.heap.clusters|, q.length)
      ensures res == NULL ==> cache.heap.mem[..] == seen.m && cache.heap.freeLists == seen.fls && lastHcUsed == -1
      // It asks for a compaction when it fails after a collection with enough bytes free in all.
      ensures compactionPending <==>
        old(compactionPending) || (res == NULL && collected && TotalFree(seen.m, cache.heap.clusters) >= q.length)
      // It remembers the cluster that served it, unless for an event.
      ensures res != NULL ==> exists c ::
        && TakenFrom(seen.m, cache.heap.mem[..], cache.heap.clusters, seen.fls, cache.heap.freeLists, c, q, res)
        && Preferred(seen.m, seen.fls, seen.last, c, q) && lastHcUsed == if q.flags.event then seen.last else c
    {
      hide ClusterOk, TakenFrom, Preferred, Collectable, FullyCollected, AllRoots, TotalFree, NoneFits, Verdicts,
           Chosen,
           Objects, CacheOk, Cached;
      var h := gc.marker.heap;
      collected, cleaned := false, [];
      seen := Snapshot(h.mem[..], h.freeLists, lastHcUsed);
      var c;
      res, c := Scan(h, lastHcUsed, q);
      if res != NULL {
        Served(c, q, res, seen);
        if !q.flags.event { lastHcUsed := c; }
        return;
      }
      lastHcUsed := -1;
      if q.noGc { return; }
      collected := true;
      var freeBytes;
      ghost var dead, overflow;
      freeBytes, cleaned, dead, overflow := ExecuteGarbageCollection(gc, cache, roots);
      seen := Snapshot(h.mem[..], h.freeLists, -1);
      res, c := Scan(h, lastHcUsed, q);
      if res != NULL {
        Served(c, q, res, seen);
        if !q.flags.event { lastHcUsed := c; }
        return;
      }
      if freeBytes >= q.length * BLOCK_BYTES { compactionPending := true; }
    }

    lemma Served(c: int, q: Request, res: int, seen: Snapshot)
      requires Spaced(cache.heap.clusters) && ClustersOk(seen.m, cache.heap.clusters, seen.fls)
      requires CacheOk(seen.m, cache.heap.clusters, cache.events)
      requires TakenFrom(seen.m, cache.heap.mem[..], cache.heap.clusters, seen.fls, cache.heap.freeLists, c, q, res)
      ensures 0 <= c < |cache.heap.clusters| && CacheOk(cache.heap.mem[..], cache.heap.clusters, cache.events)
    {
      CacheKept(seen.m, cache.heap.mem[..], cache.heap.clusters, seen.fls, cache.heap.freeLists, c, q, res,
                cache.events);
    }
  }

  /** Cached blocks are in use, so an allocation leaves them alone. */
  lemma CacheKept(m: Memory, m': Memory, cl: seq<Range>, fls: seq<seq<int>>, fls': seq<seq<int>>, c: int,
                  q: Request, res: int, events: seq<seq<int>>)
    requires Spaced(cl) && ClustersOk(m, cl, fls) && CacheOk(m, cl, events)
    requires TakenFrom(m, m', cl, fls, fls', c, q, res)
    ensures 0 <= c < |cl| && CacheOk(m', cl, events)
  {
    hide CacheOk, Cached, ClusterOk, Live, FirstFit, Zeroed;
    forall b | b in Blocks(m, cl) ensures b in Blocks(m', cl) && 0 <= b < |m| && m'[b] == m[b] {
      BlockKept(m, m', cl, fls, fls', c, q, res, b);
    }
    forall a | a in Cached(events) && 0 <= a < |m| ensures m'[a] == m[a] { CachedIsBlock(m, cl, events, a); }
    CacheFrame(m, m', cl, events);
  }

  lemma BlockKept(m: Memory, m': Memory, cl: seq<Range>, fls: seq<seq<int>>, fls': seq<seq<int>>, c: int,
                  q: Request, res: int, b: int)
    requires Spaced(cl) && ClustersOk(m, cl, fls) && TakenFrom(m, m', cl, fls, fls', c, q, res) && b in Blocks(m, cl)
    ensures b in Blocks(m', cl) && 0 <= b < |m| == |m'| && m'[b] == m[b]
  {
    hide Starts, Tiled, Tidy, FreeList, FreeSize, FirstFit, Zeroed;
    BlockInside(m, cl, b);
    var d :| 0 <= d < |cl| && b in Live(m, cl[d].lo, cl[d].hi);
    if d == c {
      assert Unchanged(m, m', b, b + m[b].size);
    } else {
      assert cl[c].hi < cl[d].lo || cl[d].hi < cl[c].lo;
      assert ClusterOk(m, cl[d], fls[d]);
      FrameUnchanged(m, m', cl[d].lo, cl[d].hi);
    }
    assert b in Live(m', cl[d].lo, cl[d].hi);
  }

  // ---- Failure means there is no room ----

  /** The n cells from p on touch no block in use. */
  ghost predicate FreeRun(m: Memory, r: Range, p: int, n: nat)
  {
    r.lo <= p && p + n <= r.hi && forall a :: a in Live(m, r.lo, r.hi) ==> a + m[a].size <= p || p + n <= a
  }

  /** Because free blocks are coalesced, any run of n free cells lies in one free block. */
  lemma {:induction false} RunInOneBlock(m: Memory, r: Range, p: int, n: nat) returns (f: int)
    requires Tiled(m, r.lo, r.hi) && Tidy(m, r.lo, r.hi) && FreeRun(m, r, p, n) && n > 0
    ensures f in Starts(m, r.lo, r.hi) && IsFree(m[f]) && f <= p && p + n <= f + m[f].size
    decreases r.hi - r.lo
  {
    var next := r.lo + m[r.lo].size;
    if next <= p {
      f := RunInOneBlock(m, Range(next, r.hi), p, n);
    } else {
      f := r.lo;
      assert IsFree(m[f]);
      NextStart(m, next, r.hi);
      assert next < r.hi ==> next in Live(m, r.lo, r.hi);
    }
  }

  /** A cluster refuses a request exactly when it has no free run of that length. */
  lemma NoFitNoRun(m: Memory, r: Range, fl: seq<int>, n: nat)
    requires ClusterOk(m, r, fl) && n > 0
    ensures NoFit(m, fl, n) <==> forall p :: !FreeRun(m, r, p, n)
  {
    hide Starts, Tiled, Tidy, FreeList;
    forall i | 0 <= i < |fl| ensures 0 <= fl[i] < |m| { FreeListAt(m, r.lo, r.hi, i); }
    if i :| 0 <= i < |fl| && m[fl[i]].size >= n {
      FreeListAt(m, r.lo, r.hi, i);
      FreeBlockRun(m, r, fl[i], n);
    }
    if p :| FreeRun(m, r, p, n) {
      var f := RunInOneBlock(m, r, p, n);
      FreeListMember(m, r.lo, r.hi, f);
    }
  }

  lemma FreeBlockRun(m: Memory, r: Range, f: int, n: nat)
    requires Tiled(m, r.lo, r.hi) && f in Starts(m, r.lo, r.hi) && IsFree(m[f]) && n <= m[f].size
    ensures FreeRun(m, r, f, n)
  {
    hide Starts, Tiled;
    forall a | a in Live(m, r.lo, r.hi) ensures a + m[a].size <= f || f + n <= a {
      if a < f { Disjoint(m, r.lo, r.hi, a, f); } else { Disjoint(m, r.lo, r.hi, f, a); }
    }
  }
}
