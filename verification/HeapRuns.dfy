/** Collections and compactions in any order: each leaves heap, roots, finalizers and event cache fit for the
    next. */
module HeapRuns {
  import opened HeapBlocks
  import opened ClusterInvariant
  import opened Relocation
  import opened CompactionSpec
  import opened RelocationPass
  import opened Compaction
  import opened CompactionPacking
  import opened CompactionIdle
  import opened ClusterAllocation
  import opened EventCache
  import opened Reachability
  import opened CompactedGraph
  import opened Marking
  import opened Finalization
  import opened Collection
  import opened FullCollection

  // ---- The compacted graph ----

  /** No header lies inside a block. */
  lemma InsideNoStart(m: Memory, cl: seq<Range>, a: int, x: int)
    requires Laid(m, cl) && a in Blocks(m, cl) && 0 <= a < |m| && a < x < a + m[a].size
    ensures NotStart(m, cl, x)
  {
    hide Starts, Tiled;
    var d :| 0 <= d < |cl| && a in Live(m, cl[d].lo, cl[d].hi);
    forall c | 0 <= c < |cl| ensures x !in Starts(m, cl[c].lo, cl[c].hi) {
      if c == d {
        if x in Starts(m, cl[c].lo, cl[c].hi) { Disjoint(m, cl[c].lo, cl[c].hi, a, x); }
      } else {
        assert cl[c].hi < cl[d].lo || cl[d].hi < cl[c].lo;
      }
    }
  }

  /** A cell that leads nowhere still does; one that leads to a block leads to the moved block. */
  lemma TargetMoves(m0: Memory, m: Memory, cl: seq<Range>, all: seq<Region>, origin: map<int, int>, c: Cell)
    requires Compacted(m0, m, cl, all, origin) && (Target(c) == NULL || Target(c) in Blocks(m0, cl))
    ensures Target(PatchCell(all, c)) == NULL || Target(PatchCell(all, c)) in Blocks(m, cl)
  {
    hide Blocks, Reloc, GraphOk, Within, Kept;
    GraphParts(m0, cl);
    NotMoved(cl, all);
  }

  lemma ScalarMoves(m0: Memory, m: Memory, cl: seq<Range>, all: seq<Region>, origin: map<int, int>, a: int, x: int)
    requires Compacted(m0, m, cl, all, origin) && Laid(m, cl) && a in Blocks(m0, cl) && 0 <= a < |m0|
    requires a < x < a + m0[a].size && ScalarAt(m0, cl, x)
    ensures ScalarAt(m, cl, x - a + Reloc(all, a))
  {
    hide Blocks, Reloc, GraphOk, Within, Kept, Laid, NotStart, Target;
    var x' := x - a + Reloc(all, a);
    MovedCell(m0, m, cl, all, origin, a, 0);
    MovedCell(m0, m, cl, all, origin, a, x - a);
    InsideNoStart(m, cl, Reloc(all, a), x');
    TargetMoves(m0, m, cl, all, origin, m0[x]);
  }

  lemma HeaderMoves(m0: Memory, m: Memory, cl: seq<Range>, all: seq<Region>, origin: map<int, int>, a: int)
    requires Compacted(m0, m, cl, all, origin) && a in Blocks(m0, cl)
    ensures var b := Reloc(all, a);
      && b in Blocks(m, cl) && 0 < b < |m| && 0 <= a < |m0| && 1 <= m0[a].size && m[b] == PatchCell(all, m0[a])
      && (Target(m[b]) == NULL || Target(m[b]) in Blocks(m, cl))
  {
    hide Blocks, Reloc, Within, Kept, Target, ScalarList, Leaf, FieldsInside, Laid;
    BlockInside(m0, cl, a);
    MovedCell(m0, m, cl, all, origin, a, 0);
    TargetMoves(m0, m, cl, all, origin, m0[a]);
    GraphParts(m0, cl);
    BlockAbove(m, cl, Reloc(all, a));
  }

  /** What the header of a block says moves with it. */
  lemma HeaderFields(m0: Memory, m: Memory, cl: seq<Range>, a: int, b: int, all: seq<Region>)
    requires GraphOk(m0, cl) && a in Blocks(m0, cl) && 0 <= a < |m0| && 0 <= b < |m| && m[b] == PatchCell(all, m0[a])
    ensures FieldsInside(m, b) && m[b].flags == m0[a].flags && (m[b].flags.event ==> Leaf(m[b]))
    ensures FieldList(m[b], b) == (FieldList(m0[a], a).0 - a + b, FieldList(m0[a], a).1)
  {
    hide Blocks, Reloc, ScalarList, Target, Laid;
  }

  lemma BlockMoves(m0: Memory, m: Memory, cl: seq<Range>, all: seq<Region>, origin: map<int, int>, a: int)
    requires Compacted(m0, m, cl, all, origin) && Laid(m, cl) && a in Blocks(m0, cl)
    ensures var b := Reloc(all, a);
      && b in Blocks(m, cl) && 0 < b < |m| && FieldsInside(m, b) && 0 <= a < |m0| && m[b].flags == m0[a].flags
      && ScalarList(m, cl, FieldList(m[b], b).0, FieldList(m[b], b).1)
      && (Target(m[b]) == NULL || Target(m[b]) in Blocks(m, cl)) && (m[b].flags.event ==> Leaf(m[b]))
  {
    hide Blocks, Reloc, Within, Kept, Laid, ScalarAt, Target, GraphOk, PatchCell, FieldList, FieldsInside, Leaf,
         Preserved,
         Ordered;
    var b := Reloc(all, a);
    HeaderMoves(m0, m, cl, all, origin, a);
    HeaderFields(m0, m, cl, a, b, all);
    var (first, n) := FieldList(m0[a], a);
    forall x' | first - a + b <= x' < first - a + b + n ensures ScalarAt(m, cl, x') {
      var x := x' - b + a;
      FieldNotHeader(m0, cl, a, x);
      ScalarMoves(m0, m, cl, all, origin, a, x);
    }
  }

  lemma FieldNotHeader(m: Memory, cl: seq<Range>, a: int, x: int)
    requires GraphOk(m, cl) && a in Blocks(m, cl) && 0 <= a < |m|
    requires FieldList(m[a], a).0 <= x < FieldList(m[a], a).0 + FieldList(m[a], a).1
    ensures a < x < a + m[a].size && ScalarAt(m, cl, x)
  {
    hide Starts, Target;
    assert ScalarAt(m, cl, x);
    var c :| 0 <= c < |cl| && a in Live(m, cl[c].lo, cl[c].hi);
  }

  /** The compacted heap is a proper object graph again. */
  lemma CompactedGraphOk(m0: Memory, m: Memory, cl: seq<Range>, all: seq<Region>, origin: map<int, int>)
    requires Compacted(m0, m, cl, all, origin) && Laid(m, cl) && NoMarks(m0, cl)
    ensures GraphOk(m, cl) && NoMarks(m, cl)
  {
    hide Blocks, Reloc, Within, Kept, Laid, ScalarList, Target, Leaf, FieldsInside, FieldList;
    forall b | b in Blocks(m, cl)
      ensures 0 < b < |m| && FieldsInside(m, b) && ScalarList(m, cl, FieldList(m[b], b).0, FieldList(m[b], b).1)
      ensures (Target(m[b]) == NULL || Target(m[b]) in Blocks(m, cl)) && (m[b].flags.event ==> Leaf(m[b]))
      ensures m[b].flags.alive ==> m[b].flags.event
    {
      BlockMoves(m0, m, cl, all, origin, origin[b]);
    }
  }

  // ---- Roots, finalizers and cached blocks ----

  /** Root cells lie inside marked events that are not cached: those neither move nor die. */
  ghost predicate Held(m: Memory, cl: seq<Range>, r: Root)
  {
    r.Cells? && r.first != NULL ==>
      exists a :: a in Blocks(m, cl) && Holder(m, a) && a < r.first && r.first + r.count <= a + m[a].size
  }

  predicate Holder(m: Memory, a: int)
  {
    0 <= a < |m| && m[a].flags.alive && m[a].flags.event && !m[a].dt.CachedBlock?
  }

  ghost predicate RootsHeld(m: Memory, cl: seq<Range>, roots: seq<Root>)
  {
    forall i :: 0 <= i < |roots| ==> Held(m, cl, roots[i])
  }

  /** A compaction moves the blocks roots refer to, not the cells. */
  function MovedRoot(all: seq<Region>, r: Root): (r': Root)
  {
    match r case Forced(b) => Forced(Reloc(all, b)) case Cells(_, _) => r
  }

  function MovedRootList(all: seq<Region>, roots: seq<Root>): (roots': seq<Root>)
    ensures |roots'| == |roots| && forall i :: 0 <= i < |roots| ==> roots'[i] == MovedRoot(all, roots[i])
  {
    seq(|roots|, i requires 0 <= i < |roots| => MovedRoot(all, roots[i]))
  }

  function MovedFinalizers(all: seq<Region>, fs: seq<Finalizer>): (fs': seq<Finalizer>)
    ensures |fs'| == |fs| && forall i :: 0 <= i < |fs| ==> fs'[i] == fs[i].(obj := Reloc(all, fs[i].obj))
  {
    seq(|fs|, i requires 0 <= i < |fs| => fs[i].(obj := Reloc(all, fs[i].obj)))
  }

  /** An event stays where it is, header and cells. */
  lemma EventStays(m0: Memory, m: Memory, cl: seq<Range>, all: seq<Region>, origin: map<int, int>, a: int)
    requires Preserved(m0, m, cl, all, all, origin) && a in Blocks(m0, cl) && 0 <= a < |m0| && m0[a].flags.event
    ensures Reloc(all, a) == a && a in Blocks(m, cl) && a < |m| && m[a] == PatchCell(all, m0[a])
  {
    hide Blocks, Reloc;
    BlockInside(m0, cl, a);
    MovedCell(m0, m, cl, all, origin, a, 0);
    assert Kept(m0, m, all, all, a);
  }

  lemma RootCellsMove(m0: Memory, m: Memory, cl: seq<Range>, all: seq<Region>, origin: map<int, int>,
                      first: int, count: nat, a: int)
    requires Compacted(m0, m, cl, all, origin) && Laid(m, cl) && ScalarList(m0, cl, first, count)
    requires a in Blocks(m0, cl) && Holder(m0, a) && a < first && first + count <= a + m0[a].size
    ensures ScalarList(m, cl, first, count)
    ensures a in Blocks(m, cl) && Holder(m, a) && first + count <= a + m[a].size
  {
    hide Blocks, Reloc, Within, Kept, Laid, ScalarAt, GraphOk, Preserved, Ordered;
    EventStays(m0, m, cl, all, origin, a);
    forall x | first <= x < first + count ensures ScalarAt(m, cl, x) {
      assert ScalarAt(m0, cl, x);
      ScalarMoves(m0, m, cl, all, origin, a, x);
    }
  }

  lemma RootMoves(m0: Memory, m: Memory, cl: seq<Range>, all: seq<Region>, origin: map<int, int>, r: Root)
    requires Compacted(m0, m, cl, all, origin) && Laid(m, cl) && RootOk(m0, cl, r) && Held(m0, cl, r)
    ensures RootOk(m, cl, MovedRoot(all, r)) && Held(m, cl, MovedRoot(all, r))
  {
    hide Blocks, Reloc, Within, Kept, Laid, ScalarList, GraphOk, Holder, Ordered;
    match r {
      case Forced(b) =>
        GraphParts(m0, cl);
        NotMoved(cl, all);
      case Cells(first, count) =>
        if first != NULL {
          var a :| a in Blocks(m0, cl) && Holder(m0, a) && a < first && first + count <= a + m0[a].size;
          RootCellsMove(m0, m, cl, all, origin, first, count, a);
        }
    }
  }

  lemma FinalizersMove(m0: Memory, m: Memory, cl: seq<Range>, all: seq<Region>, origin: map<int, int>,
                       fs: seq<Finalizer>)
    requires Preserved(m0, m, cl, all, all, origin) && FinalizersOk(m0, cl, fs)
    ensures FinalizersOk(m, cl, MovedFinalizers(all, fs))
  {
    hide Blocks, Reloc, Kept;
  }

  /** After a compaction everything a collection asks for holds again, for the relocated roots and finalizers. */
  lemma CompactedCollectable(m0: Memory, m: Memory, cl: seq<Range>, all: seq<Region>, origin: map<int, int>,
                             roots: seq<Root>, fs: seq<Finalizer>, ps: seq<Finalizer>)
    requires Preserved(m0, m, cl, all, all, origin) && Ordered(all) && Within(all, cl) && Laid(m, cl)
    requires Collectable(m0, cl, roots, fs, ps) && RootsHeld(m0, cl, roots)
    ensures Collectable(m, cl, MovedRootList(all, roots), MovedFinalizers(all, fs), MovedFinalizers(all, ps))
    ensures RootsHeld(m, cl, MovedRootList(all, roots))
  {
    hide Blocks, Reloc, Within, Laid, GraphOk, NoMarks, RootOk, Held, Preserved, FinalizersOk, Ordered;
    CompactedGraphOk(m0, m, cl, all, origin);
    FinalizersMove(m0, m, cl, all, origin, fs);
    FinalizersMove(m0, m, cl, all, origin, ps);
    forall i | 0 <= i < |roots|
      ensures RootOk(m, cl, MovedRoot(all, roots[i])) && Held(m, cl, MovedRoot(all, roots[i]))
    {
      assert RootOk(m0, cl, roots[i]) && Held(m0, cl, roots[i]);
      RootMoves(m0, m, cl, all, origin, roots[i]);
    }
  }

  /** Cached blocks are events, so the cache stays right. */
  lemma CacheStays(m0: Memory, m: Memory, cl: seq<Range>, all: seq<Region>, origin: map<int, int>,
                   events: seq<seq<int>>)
    requires Preserved(m0, m, cl, all, all, origin) && CacheOk(m0, cl, events)
    ensures CacheOk(m, cl, events)
  {
    hide Blocks, Reloc, Kept, Distinct, Preserved;
    forall i, k | Slot(events, i, k) ensures CachedAt(m, cl, i, events[i][k]) {
      assert CachedAt(m0, cl, i, events[i][k]);
      BlockInside(m0, cl, events[i][k]);
      EventStays(m0, m, cl, all, origin, events[i][k]);
    }
  }

  /** Root cells are still held after a collection. */
  lemma HeldAgain(m0: Memory, cleaned: Memory, m: Memory, cl: seq<Range>, rs: set<int>, events: seq<seq<int>>,
                  roots: seq<Root>)
    requires FullyCollected(m0, cleaned, m, cl, rs, Cached(events)) && CacheOk(m0, cl, events)
    requires RootsHeld(m0, cl, roots)
    ensures RootsHeld(m, cl, roots)
  {
    hide Blocks, CacheOk, Cached, GraphOk, NoMarks, Reachable, Retired, TotalFree, TotalKept, Payload;
    forall i | 0 <= i < |roots| ensures Held(m, cl, roots[i]) {
      assert Held(m0, cl, roots[i]);
      var r := roots[i];
      if r.Cells? && r.first != NULL {
        var a :| a in Blocks(m0, cl) && Holder(m0, a) && a < r.first && r.first + r.count <= a + m0[a].size;
        if a in Cached(events) { CachedHeader(m0, cl, events, a); }
        RetiredCell(m0, cleaned, cl, events, a);
        assert a in Outliving(m0, cl, rs, Cached(events)) && a in Blocks(m, cl);
        assert InPlace(cleaned, m, a);
        assert Holder(m, a);
      }
    }
  }

  // ---- The two operations ----

  /** Heap, collector, cache and roots between two operations. */
  ghost predicate Runnable(gc: Collector, cache: Cache, roots: seq<Root>)
    reads gc, gc.marker, cache, cache.heap, cache.heap.mem
  {
    && cache.heap == gc.marker.heap && cache.Valid() && gc.marker.markStack.Length >= 2
    && Collectable(cache.heap.mem[..], cache.heap.clusters, roots, gc.finalizersAlive, gc.finalizersPending)
    && RootsHeld(cache.heap.mem[..], cache.heap.clusters, roots)
  }

  method Collect(gc: Collector, cache: Cache, roots: seq<Root>)
    returns (freeBytes: int, ghost cleaned: Memory, ghost dead: seq<bool>, ghost overflow: bool)
    requires Runnable(gc, cache, roots)
    modifies gc, cache, gc.marker.heap`freeLists, gc.marker.heap.mem, gc.marker.markStack, gc.marker`top
    modifies gc.marker`outOfStackSpace
    ensures Runnable(gc, cache, roots) && Cached(cache.events) == {}
    ensures var m0, cl := old(cache.heap.mem[..]), cache.heap.clusters;
      var rs := Objects(old(gc.finalizersPending)) + AllRoots(m0, roots) + Objects(old(gc.finalizersAlive));
      FullyCollected(m0, cleaned, cache.heap.mem[..], cl, rs, old(Cached(cache.events)))
  {
    hide CacheOk, Cached, Blocks, ClusterOk, Collectable, FullyCollected, Verdicts, Chosen, Objects, AllRoots,
         RootsHeld, TotalFree;
    ghost var m0, events := cache.heap.mem[..], cache.events;
    ghost var rs := Objects(gc.finalizersPending) + AllRoots(m0, roots) + Objects(gc.finalizersAlive);
    freeBytes, cleaned, dead, overflow := ExecuteGarbageCollection(gc, cache, roots);
    HeldAgain(m0, cleaned, cache.heap.mem[..], cache.heap.clusters, rs, events, roots);
  }

  /** The pointers the execution engine owns: forced roots and the objects of finalizers. */
  function Pointers(roots: seq<Root>, fs: seq<Finalizer>): (ds: seq<Data>)
    ensures |ds| == |roots| + |fs|
    ensures forall i :: 0 <= i < |roots| ==> ds[i] == if roots[i].Forced? then Ref(roots[i].block) else Raw(0)
    ensures forall i :: 0 <= i < |fs| ==> ds[|roots| + i] == Ref(fs[i].obj)
  {
    seq(|roots|, i requires 0 <= i < |roots| => if roots[i].Forced? then Ref(roots[i].block) else Raw(0))
    + seq(|fs|, i requires 0 <= i < |fs| => Ref(fs[i].obj))
  }

  function PointerOf(d: Data): (p: int) { match d case Ref(p) => p case Raw(_) => NULL }

  function ReadRoots(roots: seq<Root>, ds: seq<Data>): (roots': seq<Root>)
    requires |roots| <= |ds|
  {
    seq(|roots|, i requires 0 <= i < |roots| => if roots[i].Forced? then Forced(PointerOf(ds[i])) else roots[i])
  }

  function ReadFinalizers(fs: seq<Finalizer>, ds: seq<Data>, at: nat): (fs': seq<Finalizer>)
    requires at + |fs| <= |ds|
  {
    seq(|fs|, i requires 0 <= i < |fs| => fs[i].(obj := PointerOf(ds[at + i])))
  }

  /** Heap_Compact, with the engine's own pointers relocated along. */
  method Compact(gc: Collector, g: Relocator, cache: Cache, roots: seq<Root>)
    returns (roots': seq<Root>, ghost all: seq<Region>, ghost origin: map<int, int>)
    requires Runnable(gc, cache, roots) && g.heap == cache.heap && g.relocTotal >= 1 && g.relocBlocks == []
    modifies gc, g`relocBlocks, g`roots, g.heap`freeLists, g.heap.mem
    ensures Runnable(gc, cache, roots') && g.relocBlocks == [] && cache.events == old(cache.events)
    ensures Preserved(old(g.heap.mem[..]), g.heap.mem[..], g.heap.clusters, all, all, origin)
    ensures roots' == MovedRootList(all, roots)
    ensures gc.finalizersAlive == MovedFinalizers(all, old(gc.finalizersAlive))
    ensures gc.finalizersPending == MovedFinalizers(all, old(gc.finalizersPending))
    ensures TotalFree(g.heap.mem[..], g.heap.clusters) == TotalFree(old(g.heap.mem[..]), g.heap.clusters)
    ensures Loose(old(g.heap.mem[..]), g.heap.clusters) ==>
      forall c :: 0 <= c < |g.heap.clusters| ==> Packed(g.heap.mem[..], g.heap.clusters[c], g.heap.freeLists[c])
  {
    hide Loose, Packed, AllStuck, CacheOk, Blocks, ClusterOk, Collectable, RootsHeld, TotalFree, Preserved, Ordered,
         Downward, Within, Reloc;
    ghost var m0, cl := g.heap.mem[..], g.heap.clusters;
    var fs, ps := gc.finalizersAlive, gc.finalizersPending;
    var ds := Pointers(roots, fs + ps);
    g.roots := ds;
    all, origin := HeapCompact(g);
    roots' := ReadRoots(roots, g.roots);
    gc.finalizersAlive := ReadFinalizers(fs, g.roots, |roots|);
    gc.finalizersPending := ReadFinalizers(ps, g.roots, |roots| + |fs|);
    ReadBack(roots, fs, ps, all);
    ValidLaid(g.heap.mem[..], cl, g.heap.freeLists);
    CompactedCollectable(m0, g.heap.mem[..], cl, all, origin, roots, fs, ps);
    CacheStays(m0, g.heap.mem[..], cl, all, origin, cache.events);
  }

  /** A packed cluster serves every request that its free space is enough for. */
  lemma PackedServes(m: Memory, r: Range, fl: seq<int>, n: nat)
    requires ClusterOk(m, r, fl) && Packed(m, r, fl) && n > 0
    ensures NoFit(m, fl, n) <==> FreeSize(m, r.lo, r.hi) < n
  {
    hide Tiled, Tidy, FreeList, FreeSize;
    ListSizeIsFree(m, r.lo, r.hi);
    if fl != [] {
      ListSizeRest(m, fl, 0);
      assert fl[0..] == fl && fl[1..] == [];
    }
    NoneListed(m);
  }

  /** So a heap of one cluster that compaction has packed serves a request exactly when there was as much free
      space in all. */
  lemma CompactionServes(m0: Memory, m: Memory, r: Range, fl: seq<int>, n: nat)
    requires ClusterOk(m, r, fl) && Packed(m, r, fl) && n > 0 && TotalFree(m, [r]) == TotalFree(m0, [r])
    ensures NoFit(m, fl, n) <==> TotalFree(m0, [r]) < n
  {
    PackedServes(m, r, fl, n);
    assert [r][..0] == [] && TotalFree(m, []) == 0;
  }

  lemma ReadBack(roots: seq<Root>, fs: seq<Finalizer>, ps: seq<Finalizer>, all: seq<Region>)
    ensures var ds := PatchRoots(all, Pointers(roots, fs + ps));
      && ReadRoots(roots, ds) == MovedRootList(all, roots)
      && ReadFinalizers(fs, ds, |roots|) == MovedFinalizers(all, fs)
      && ReadFinalizers(ps, ds, |roots| + |fs|) == MovedFinalizers(all, ps)
  {
    hide Reloc, PatchRoots, Pointers, ReadRoots, ReadFinalizers, MovedRootList, MovedFinalizers;
    var both := fs + ps;
    assert both[0..0 + |fs|] == fs && both[|fs|..|fs| + |ps|] == ps;
    ReadRootsBack(roots, both, all);
    ReadFinalizersBack(roots, fs, ps, all, 0, fs);
    ReadFinalizersBack(roots, fs, ps, all, |fs|, ps);
  }

  lemma ReadRootsBack(roots: seq<Root>, both: seq<Finalizer>, all: seq<Region>)
    ensures var ds := PatchRoots(all, Pointers(roots, both));
      |ds| == |roots| + |both| && ReadRoots(roots, ds) == MovedRootList(all, roots)
  {
    hide Reloc;
    var ds := PatchRoots(all, Pointers(roots, both));
    forall i | 0 <= i < |roots| ensures ReadRoots(roots, ds)[i] == MovedRoot(all, roots[i]) {}
  }

  lemma ReadFinalizersBack(roots: seq<Root>, fs: seq<Finalizer>, ps: seq<Finalizer>, all: seq<Region>, n: nat,
                           part: seq<Finalizer>)
    requires n + |part| <= |fs + ps| && (fs + ps)[n..n + |part|] == part
    ensures var ds := PatchRoots(all, Pointers(roots, fs + ps));
      |ds| == |roots| + |fs + ps| && ReadFinalizers(part, ds, |roots| + n) == MovedFinalizers(all, part)
  {
    hide Reloc;
    var both := fs + ps;
    var ds := PatchRoots(all, Pointers(roots, both));
    forall i | 0 <= i < |part| ensures ds[|roots| + n + i] == Ref(Reloc(all, part[i].obj)) {
      assert both[n + i] == both[n..n + |part|][i] == part[i];
      assert Pointers(roots, both)[|roots| + (n + i)] == Ref(both[n + i].obj);
    }
  }
}
