/** CLR_RT_GarbageCollector::ExecuteGarbageCollection: the event cache gives its blocks up, then the heap is
    marked and swept. */
module FullCollection {
  import opened HeapBlocks
  import opened ClusterInvariant
  import opened CompactionSpec
  import opened EventCache
  import opened Reachability
  import opened Marking
  import opened MarkStack
  import opened Finalization
  import opened Collection

  /** A cell after the clean-up means what it meant before. */
  lemma RetiredCell(m: Memory, m': Memory, cl: seq<Range>, events: seq<seq<int>>, x: int)
    requires CacheOk(m, cl, events) && Retired(m, m', Cached(events)) && 0 <= x < |m|
    ensures |m'| == |m| && m'[x].dt == m[x].dt && m'[x].size == m[x].size && m'[x].flags.event == m[x].flags.event
    ensures Target(m'[x]) == Target(m[x]) && FieldList(m'[x], x) == FieldList(m[x], x)
    ensures m'[x].flags.alive <==> m[x].flags.alive && x !in Cached(events)
    ensures x !in Cached(events) ==> m'[x] == m[x]
  {
    hide CacheOk, Cached;
    if x in Cached(events) { CachedHeader(m, cl, events, x); }
  }

  lemma RetiredCells(m: Memory, m': Memory, cl: seq<Range>, events: seq<seq<int>>)
    requires CacheOk(m, cl, events) && Retired(m, m', Cached(events))
    ensures |m'| == |m|
    ensures forall x :: 0 <= x < |m| ==> Target(m'[x]) == Target(m[x]) && FieldList(m'[x], x) == FieldList(m[x], x)
  {
    hide CacheOk, Cached, Target, FieldList, Retired;
    RetiredSize(m, m', Cached(events));
    forall x | 0 <= x < |m| ensures Target(m'[x]) == Target(m[x]) && FieldList(m'[x], x) == FieldList(m[x], x) {
      RetiredCell(m, m', cl, events, x);
    }
  }

  lemma RetiredSize(m: Memory, m': Memory, done: set<int>)
    requires Retired(m, m', done)
    ensures |m'| == |m|
  {
  }

  lemma RetiredScalar(m: Memory, m': Memory, cl: seq<Range>, fls: seq<seq<int>>, events: seq<seq<int>>, x: int)
    requires Spaced(cl) && ClustersOk(m, cl, fls) && CacheOk(m, cl, events) && Retired(m, m', Cached(events))
    requires ScalarAt(m, cl, x)
    ensures ScalarAt(m', cl, x)
  {
    hide CacheOk, Cached, Blocks, Starts, Retired, ClusterOk, Target, FieldList;
    RetiredHeap(m, m', cl, fls, events);
    RetiredCell(m, m', cl, events, x);
  }

  /** The clean-up leaves a graph the collector can work on, with the same roots and finalizers. */
  lemma RetiredCollectable(m: Memory, m': Memory, cl: seq<Range>, fls: seq<seq<int>>, events: seq<seq<int>>,
                           roots: seq<Root>, fs: seq<Finalizer>, ps: seq<Finalizer>)
    requires Spaced(cl) && ClustersOk(m, cl, fls) && CacheOk(m, cl, events) && Retired(m, m', Cached(events))
    requires Collectable(m, cl, roots, fs, ps)
    ensures Collectable(m', cl, roots, fs, ps)
  {
    hide CacheOk, Cached, Blocks, Retired, ClusterOk, ScalarAt, Target, Leaf, FieldList, FieldsInside, Laid;
    RetiredHeap(m, m', cl, fls, events);
    ValidLaid(m', cl, fls);
    forall b | b in Blocks(m', cl)
      ensures 0 < b < |m'| && FieldsInside(m', b) && ScalarList(m', cl, FieldList(m'[b], b).0, FieldList(m'[b], b).1)
      ensures (Target(m'[b]) == NULL || Target(m'[b]) in Blocks(m', cl)) && (m'[b].flags.event ==> Leaf(m'[b]))
      ensures m'[b].flags.alive ==> m'[b].flags.event
    {
      RetiredBlock(m, m', cl, events, b);
      var (first, n) := FieldList(m[b], b);
      forall x | first <= x < first + n ensures ScalarAt(m', cl, x) { RetiredScalar(m, m', cl, fls, events, x); }
    }
    RetiredRootsOk(m, m', cl, fls, events, roots);
  }

  lemma RetiredBlock(m: Memory, m': Memory, cl: seq<Range>, events: seq<seq<int>>, b: int)
    requires CacheOk(m, cl, events) && Retired(m, m', Cached(events)) && b in Blocks(m, cl)
    requires GraphOk(m, cl) && NoMarks(m, cl)
    ensures 0 < b < |m| == |m'| && FieldsInside(m', b) && FieldList(m'[b], b) == FieldList(m[b], b)
    ensures Target(m'[b]) == Target(m[b]) && (m'[b].flags.event ==> Leaf(m'[b]))
    ensures (m'[b].flags.alive ==> m'[b].flags.event)
  {
    hide CacheOk, Cached, Blocks, Retired, ScalarList, Laid, Target, FieldList;
    RetiredCell(m, m', cl, events, b);
  }

  lemma RetiredRootsOk(m: Memory, m': Memory, cl: seq<Range>, fls: seq<seq<int>>, events: seq<seq<int>>,
                       roots: seq<Root>)
    requires Spaced(cl) && ClustersOk(m, cl, fls) && CacheOk(m, cl, events) && Retired(m, m', Cached(events))
    requires RootsOk(m, cl, roots)
    ensures RootsOk(m', cl, roots)
  {
    hide CacheOk, Cached, Blocks, Retired, ClusterOk, ScalarAt;
    RetiredHeap(m, m', cl, fls, events);
    forall i | 0 <= i < |roots| ensures RootOk(m', cl, roots[i]) {
      assert RootOk(m, cl, roots[i]);
      match roots[i] {
        case Forced(b) =>
        case Cells(first, count) =>
          if first != NULL {
            forall x | first <= x < first + count ensures ScalarAt(m', cl, x) {
              RetiredScalar(m, m', cl, fls, events, x);
            }
          }
      }
    }
  }

  /** The roots lead to the same blocks. */
  lemma {:induction false} RetiredAllRoots(m: Memory, m': Memory, cl: seq<Range>, events: seq<seq<int>>,
                                           roots: seq<Root>)
    requires CacheOk(m, cl, events) && Retired(m, m', Cached(events))
    ensures AllRoots(m', roots) == AllRoots(m, roots)
    decreases |roots|
  {
    hide CacheOk, Cached, Retired, Target, FieldList;
    if roots != [] {
      RetiredAllRoots(m, m', cl, events, roots[..|roots| - 1]);
      RetiredCells(m, m', cl, events);
      SameTargets(m, m', roots[|roots| - 1]);
    }
  }

  lemma SameTargets(m: Memory, m': Memory, r: Root)
    requires |m'| == |m| && forall x :: 0 <= x < |m| ==> Target(m'[x]) == Target(m[x])
    ensures RootBlocks(m', r) == RootBlocks(m, r)
  {
    hide Target, Interval;
    if r.Cells? && r.first != NULL {
      var s := set x | x in Interval(r.first, r.count) && 0 <= x < |m| :: Target(m[x]);
      var s' := set x | x in Interval(r.first, r.count) && 0 <= x < |m'| :: Target(m'[x]);
      forall t ensures t in s <==> t in s' {
        if t in s {
          var x :| x in Interval(r.first, r.count) && 0 <= x < |m| && Target(m[x]) == t;
          assert Target(m'[x]) == t;
        }
        if t in s' {
          var x :| x in Interval(r.first, r.count) && 0 <= x < |m'| && Target(m'[x]) == t;
          assert Target(m[x]) == t;
        }
      }
    }
  }

  /** The same blocks are reachable. */
  lemma RetiredReachable(m: Memory, m': Memory, cl: seq<Range>, fls: seq<seq<int>>, events: seq<seq<int>>, rs: set<int>,
                         b: int)
    requires Spaced(cl) && ClustersOk(m, cl, fls) && CacheOk(m, cl, events) && Retired(m, m', Cached(events))
    ensures Reachable(m', cl, rs, b) <==> Reachable(m, cl, rs, b)
  {
    hide CacheOk, Cached, Retired, Blocks, Edge, ClusterOk, Target, FieldList;
    RetiredHeap(m, m', cl, fls, events);
    RetiredCells(m, m', cl, events);
    forall a, t ensures Edge(m', a, t) == Edge(m, a, t) { SameEdge(m, m', a, t); }
    if Reachable(m, cl, rs, b) {
      var path :| PathTo(m, cl, rs, path, b);
      assert PathTo(m', cl, rs, path, b);
    }
    if Reachable(m', cl, rs, b) {
      var path :| PathTo(m', cl, rs, path, b);
      assert PathTo(m, cl, rs, path, b);
    }
  }

  lemma SameEdge(m: Memory, m': Memory, a: int, t: int)
    requires |m'| == |m|
    requires forall x :: 0 <= x < |m| ==> Target(m'[x]) == Target(m[x]) && FieldList(m'[x], x) == FieldList(m[x], x)
    ensures Edge(m', a, t) == Edge(m, a, t)
  {
    hide Target, FieldList;
    forall x | 0 <= x < |m| ensures CellOf(m', a, x) == CellOf(m, a, x) {}
  }

  /** The blocks that outlive a collection: events in use and not cached, and whatever is reachable. */
  ghost function Outliving(m: Memory, cl: seq<Range>, rs: set<int>, cached: set<int>): (s: set<int>)
  {
    set b | b in Blocks(m, cl) && ((0 <= b < |m| && m[b].flags.alive && b !in cached) || Reachable(m, cl, rs, b))
  }

  lemma RetiredSurvivors(m: Memory, m': Memory, cl: seq<Range>, fls: seq<seq<int>>, events: seq<seq<int>>, rs: set<int>)
    requires Spaced(cl) && ClustersOk(m, cl, fls) && CacheOk(m, cl, events) && Retired(m, m', Cached(events))
    ensures Survivors(m', cl, rs) == Outliving(m, cl, rs, Cached(events))
  {
    hide CacheOk, Cached, Retired, Blocks, Reachable, ClusterOk, Target, FieldList;
    RetiredHeap(m, m', cl, fls, events);
    forall b ensures b in Survivors(m', cl, rs) <==> b in Outliving(m, cl, rs, Cached(events)) {
      RetiredReachable(m, m', cl, fls, events, rs, b);
      if b in Blocks(m, cl) {
        BlockInside(m, cl, b);
        RetiredCell(m, m', cl, events, b);
      }
    }
  }

  /** What a collection makes of the heap it starts from: `cleaned` is that heap once the cached blocks are
      given up.  No block that was cached survives unless something refers to it. */
  ghost predicate FullyCollected(m0: Memory, cleaned: Memory, m': Memory, cl: seq<Range>, rs: set<int>,
                                 cached: set<int>)
  {
    && Retired(m0, cleaned, cached) && Collected(cleaned, m', cl, rs)
    && Blocks(m', cl) == Outliving(m0, cl, rs, cached)
  }

  /** ExecuteGarbageCollection. */
  method ExecuteGarbageCollection(gc: Collector, cache: Cache, roots: seq<Root>)
    returns (freeBytes: int, ghost cleaned: Memory, ghost dead: seq<bool>, ghost overflow: bool)
    requires cache.heap == gc.marker.heap && cache.Valid() && gc.marker.markStack.Length >= 2
    requires Collectable(gc.marker.heap.mem[..], gc.marker.heap.clusters,
             roots, gc.finalizersAlive, gc.finalizersPending)
    modifies gc, cache, gc.marker.heap`freeLists, gc.marker.heap.mem, gc.marker.markStack, gc.marker`top
    modifies gc.marker`outOfStackSpace
    ensures cache.Valid() && Cached(cache.events) == {}
    ensures Collectable(gc.marker.heap.mem[..], gc.marker.heap.clusters,
            roots, gc.finalizersAlive, gc.finalizersPending)
    ensures var m0, cl, fs := old(gc.marker.heap.mem[..]), gc.marker.heap.clusters, old(gc.finalizersAlive);
      var seeds := Objects(old(gc.finalizersPending)) + AllRoots(m0, roots);
      && FullyCollected(m0, cleaned, gc.marker.heap.mem[..], cl, seeds + Objects(fs), old(Cached(cache.events)))
      && |dead| == |fs| && Verdicts(cleaned, cl, seeds, fs, dead, overflow)
      && (Ample(cleaned, cl, gc.marker.markStack.Length) ==> !overflow)
    ensures gc.finalizersAlive == Chosen(old(gc.finalizersAlive), dead, false)
    ensures gc.finalizersPending == old(gc.finalizersPending) + Chosen(old(gc.finalizersAlive), dead, true)
    ensures freeBytes == TotalFree(gc.marker.heap.mem[..], gc.marker.heap.clusters) * BLOCK_BYTES
  {
    hide CacheOk, Cached, Retired, Blocks, ClusterOk, Collectable, Collected, Verdicts, Chosen, Objects, AllRoots,
         Survivors, Outliving, Ample, TotalFree;
    var h := gc.marker.heap;
    ghost var m0, cl, fls, events := h.mem[..], h.clusters, h.freeLists, cache.events;
    ghost var rs := Objects(gc.finalizersPending) + AllRoots(m0, roots) + Objects(gc.finalizersAlive);
    var tot := cache.Cleanup();
    cleaned := h.mem[..];
    RetiredCollectable(m0, cleaned, cl, fls, events, roots, gc.finalizersAlive, gc.finalizersPending);
    RetiredAllRoots(m0, cleaned, cl, events, roots);
    RetiredSurvivors(m0, cleaned, cl, fls, events, rs);
    freeBytes, dead, overflow := MarkAndSweep(gc, roots);
    SurvivorsLeft(cleaned, h.mem[..], cl, rs);
    StillEmpty(cleaned, h.mem[..], cl, cache.events);
  }

  lemma SurvivorsLeft(m0: Memory, m': Memory, cl: seq<Range>, rs: set<int>)
    requires Collected(m0, m', cl, rs)
    ensures Blocks(m', cl) == Survivors(m0, cl, rs)
  {
  }

  /** An empty cache says nothing about the heap. */
  lemma StillEmpty(m: Memory, m': Memory, cl: seq<Range>, events: seq<seq<int>>)
    requires CacheOk(m, cl, events) && Cached(events) == {}
    ensures CacheOk(m', cl, events)
  {
    hide Blocks, Distinct;
    assert forall i, k :: Slot(events, i, k) ==> events[i][k] in Cached(events);
  }
}
