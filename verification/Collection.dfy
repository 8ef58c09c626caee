/** A whole collection: mark, then sweep every cluster, then count what is free. */
module Collection {
  import opened HeapBlocks
  import opened ClusterInvariant
  import opened HeapCluster
  import opened CompactionSpec
  import opened Sweep
  import opened Reachability
  import opened Marking
  import opened MarkStack
  import opened Mark
  import opened Finalization

  ghost predicate Outside(cl: seq<Range>, i: int)
  {
    forall c :: 0 <= c < |cl| ==> !(cl[c].lo <= i < cl[c].hi)
  }

  /** The first n clusters are swept, everything else is as it was. */
  ghost predicate Swept(m: Memory, m': Memory, cl: seq<Range>, n: nat)
  {
    && |m'| == |m| && n <= |cl|
    && (forall c :: 0 <= c < n ==> Recovered(m, m', cl[c].lo, cl[c].hi))
    && (forall i :: 0 <= i < |m| && Outside(cl[..n], i) ==> m'[i] == m[i])
  }

  lemma RecoveredFrame(m: Memory, m1: Memory, m2: Memory, p: int, q: int)
    requires Recovered(m, m1, p, q) && Unchanged(m1, m2, p, q) && Tiled(m, p, q)
    ensures Recovered(m, m2, p, q)
  {
    hide Starts, Tiled, Tidy, FreeList, FreeSize, EndsFree, AliveSize;
    TiledBounds(m1, p, q);
    FrameUnchanged(m1, m2, p, q);
    forall a | a in Alive(m, p, q) ensures m2[a] == m1[a] && Unchanged(m1, m2, a + 1, a + m[a].size) {}
  }

  /** Ready for RecoverFromGC. */
  ghost predicate Sweepable(m: Memory, cl: seq<Range>)
  {
    Laid(m, cl) && forall c :: 0 <= c < |cl| ==> FreeUnmarked(m, cl[c].lo, cl[c].hi)
  }

  lemma NotYetSwept(m: Memory, m': Memory, cl: seq<Range>, c: nat)
    requires Sweepable(m, cl) && Swept(m, m', cl, c) && c < |cl|
    ensures Unchanged(m, m', cl[c].lo, cl[c].hi)
    ensures Tiled(m', cl[c].lo, cl[c].hi) && FreeUnmarked(m', cl[c].lo, cl[c].hi)
  {
    hide Tiled, Starts, Recovered;
    forall i | 0 <= i < |m| && cl[c].lo <= i < cl[c].hi ensures m'[i] == m[i] {
      assert Outside(cl[..c], i);
    }
    FrameUnchanged(m, m', cl[c].lo, cl[c].hi);
  }

  lemma SweptNext(m: Memory, m1: Memory, m2: Memory, cl: seq<Range>, c: nat)
    requires Sweepable(m, cl) && Swept(m, m1, cl, c) && c < |cl|
    requires OnlyInside(m1, m2, cl[c]) && Recovered(m1, m2, cl[c].lo, cl[c].hi)
    ensures Swept(m, m2, cl, c + 1)
  {
    hide Tiled, Starts, Recovered;
    NotYetSwept(m, m1, cl, c);
    RecoveredFrom(m, m1, m2, cl[c].lo, cl[c].hi);
    forall d | 0 <= d < c ensures Recovered(m, m2, cl[d].lo, cl[d].hi) {
      assert Recovered(m, m1, cl[d].lo, cl[d].hi) && cl[d].hi < cl[c].lo;
      RecoveredFrame(m, m1, m2, cl[d].lo, cl[d].hi);
    }
    forall i | 0 <= i < |m| && Outside(cl[..c + 1], i) ensures m2[i] == m[i] {
      assert cl[..c + 1][c] == cl[c];
      assert Outside(cl[..c], i) by {
        forall d | 0 <= d < c ensures !(cl[..c][d].lo <= i < cl[..c][d].hi) { assert cl[..c + 1][d] == cl[..c][d]; }
      }
    }
  }

  lemma RecoveredFrom(m: Memory, m1: Memory, m2: Memory, p: int, q: int)
    requires Tiled(m, p, q) && Unchanged(m, m1, p, q) && Recovered(m1, m2, p, q)
    ensures Recovered(m, m2, p, q)
  {
    hide Starts, Tiled, Tidy, FreeList, FreeSize, EndsFree, AliveSize;
    FrameUnchanged(m, m1, p, q);
    AliveSizeFrame(m, m1, p, q);
    TiledBounds(m, p, q);
    forall a | a in Alive(m, p, q) ensures m1[a] == m[a] && Unchanged(m, m1, a + 1, a + m[a].size) {}
  }

  /** The loop of Sweep over all clusters. */
  method SweepHeap(h: Heap)
    requires |h.freeLists| == |h.clusters| && Sweepable(h.mem[..], h.clusters)
    modifies h`freeLists, h.mem
    ensures h.Valid() && Swept(old(h.mem[..]), h.mem[..], h.clusters, |h.clusters|)
  {
    hide Starts, Tiled, Recovered, Sweepable, FreeUnmarked, ClusterOk, Swept;
    ghost var m, cl := h.mem[..], h.clusters;
    SweptNone(m, cl);
    for c := 0 to |h.clusters|
      invariant |h.freeLists| == |cl| && Swept(m, h.mem[..], cl, c)
      invariant forall d :: 0 <= d < c ==> ClusterOk(h.mem[..], cl[d], h.freeLists[d])
    {
      ghost var m1, fls := h.mem[..], h.freeLists;
      NotYetSwept(m, m1, cl, c);
      RecoverFromGC(h, c);
      SweptNext(m, m1, h.mem[..], cl, c);
      forall d | 0 <= d < c ensures ClusterOk(h.mem[..], cl[d], h.freeLists[d]) {
        ClusterFrame(m1, h.mem[..], cl, c, d, fls[d]);
      }
    }
  }

  lemma SweptNone(m: Memory, cl: seq<Range>)
    requires Sweepable(m, cl)
    ensures Swept(m, m, cl, 0) && Spaced(cl)
  {
  }

  lemma ClusterFrame(m: Memory, m': Memory, cl: seq<Range>, c: nat, d: nat, fl: seq<int>)
    requires Spaced(cl) && d < c < |cl| && OnlyInside(m, m', cl[c]) && ClusterOk(m, cl[d], fl)
    ensures ClusterOk(m', cl[d], fl)
  {
    FrameUnchanged(m, m', cl[d].lo, cl[d].hi);
  }

  lemma {:induction false} TidyUnmarked(m: Memory, p: int, q: int)
    requires Tiled(m, p, q) && Tidy(m, p, q)
    ensures FreeUnmarked(m, p, q)
    decreases q - p
  {
    if p < q { TidyUnmarked(m, p + m[p].size, q); }
  }

  /** In a heap in order, no free block is marked. */
  lemma ValidUnmarked(m: Memory, cl: seq<Range>, fls: seq<seq<int>>)
    requires Spaced(cl) && ClustersOk(m, cl, fls)
    ensures Sweepable(m, cl) && NoFreeMarks(m, cl)
  {
    hide Starts, Tiled, Tidy, FreeList;
    forall c | 0 <= c < |cl| ensures FreeUnmarked(m, cl[c].lo, cl[c].hi) { TidyUnmarked(m, cl[c].lo, cl[c].hi); }
  }

  /** Marking leaves the blocks where they are. */
  lemma MarkedWalk(m0: Memory, m1: Memory, cl: seq<Range>, c: nat)
    requires Laid(m0, cl) && OnlyMarks(m0, m1) && FreeIntact(m0, m1, cl) && c < |cl|
    ensures SameBlocks(m0, m1, cl[c].lo, cl[c].hi)
  {
    hide Starts, Tiled;
    TiledBounds(m0, cl[c].lo, cl[c].hi);
    Frame(m0, m1, cl[c].lo, cl[c].hi);
  }

  lemma MarkedSweepable(m0: Memory, m1: Memory, cl: seq<Range>)
    requires Laid(m0, cl) && OnlyMarks(m0, m1) && FreeIntact(m0, m1, cl) && NoFreeMarks(m0, cl)
    ensures Sweepable(m1, cl)
  {
    hide Starts, Tiled;
    forall c | 0 <= c < |cl| ensures Tiled(m1, cl[c].lo, cl[c].hi) && FreeUnmarked(m1, cl[c].lo, cl[c].hi) {
      MarkedWalk(m0, m1, cl, c);
    }
  }

  /** The blocks a collection must keep: events in use, and whatever is reachable. */
  ghost function Survivors(m: Memory, cl: seq<Range>, rs: set<int>): (s: set<int>)
  {
    set b | b in Blocks(m, cl) && (m[b].flags.alive || Reachable(m, cl, rs, b))
  }

  lemma SurvivorsAlive(m0: Memory, m1: Memory, cl: seq<Range>, rs: set<int>)
    requires Exact(m0, m1, cl, rs)
    ensures Survivors(m0, cl, rs) == set b | b in Blocks(m0, cl) && IsAlive(m1, b)
  {
    hide Reachable, Blocks;
  }

  /** After the sweep exactly the marked blocks are left. */
  lemma SweptBlocks(m0: Memory, m1: Memory, m': Memory, cl: seq<Range>)
    requires Laid(m0, cl) && OnlyMarks(m0, m1) && FreeIntact(m0, m1, cl) && NoFreeMarks(m0, cl)
    requires Swept(m1, m', cl, |cl|)
    ensures Blocks(m', cl) == set b | b in Blocks(m0, cl) && IsAlive(m1, b)
  {
    hide Starts, Tiled, Tidy, FreeSize, AliveSize;
    forall c | 0 <= c < |cl|
      ensures Live(m', cl[c].lo, cl[c].hi) == set b | b in Live(m0, cl[c].lo, cl[c].hi) && IsAlive(m1, b)
    {
      MarkedWalk(m0, m1, cl, c);
      assert Recovered(m1, m', cl[c].lo, cl[c].hi);
    }
  }

  /** A cell that lost or gained nothing but a mark. */
  predicate SameButMark(c: Cell, c': Cell)
  {
    c' == c.(flags := c.flags.(alive := c'.flags.alive))
  }

  /** A survivor is where it was; its header is the old one (an event's with the mark set), its other
      cells differ by leftover marks at most. */
  ghost predicate InPlace(m0: Memory, m': Memory, b: int)
  {
    && 0 <= b < |m0| == |m'| && 1 <= m0[b].size && b + m0[b].size <= |m0|
    && m'[b] == (if m0[b].flags.event then m0[b].(flags := m0[b].flags.(alive := true)) else m0[b])
    && forall i :: b <= i < b + m0[b].size ==> SameButMark(m0[i], m'[i])
  }

  lemma SurvivorInPlace(m0: Memory, m1: Memory, m': Memory, cl: seq<Range>, b: int)
    requires Laid(m0, cl) && OnlyMarks(m0, m1) && FreeIntact(m0, m1, cl) && NoMarks(m0, cl) && Swept(m1, m', cl, |cl|)
    requires b in Blocks(m0, cl) && IsAlive(m1, b)
    ensures InPlace(m0, m', b)
  {
    hide Starts, Tiled, Tidy, FreeSize, AliveSize, NoMarks;
    var c :| 0 <= c < |cl| && b in Live(m0, cl[c].lo, cl[c].hi);
    MarkedWalk(m0, m1, cl, c);
    assert Recovered(m1, m', cl[c].lo, cl[c].hi) && b in Alive(m1, cl[c].lo, cl[c].hi);
    EventsOnly(m0, cl, b);
  }

  lemma EventsOnly(m0: Memory, cl: seq<Range>, b: int)
    requires NoMarks(m0, cl) && b in Blocks(m0, cl) && 0 <= b < |m0|
    ensures m0[b].flags.alive ==> m0[b].flags.event
  {
  }

  /** A cell that is no header keeps its contents, wherever it lies, and stays no header. */
  lemma CellStays(m0: Memory, m1: Memory, m': Memory, cl: seq<Range>, x: int)
    requires Laid(m0, cl) && OnlyMarks(m0, m1) && FreeIntact(m0, m1, cl) && Swept(m1, m', cl, |cl|)
    requires 0 <= x < |m0| && NotStart(m0, cl, x)
    ensures |m'| == |m0| && NotStart(m', cl, x) && SameButMark(m0[x], m'[x])
  {
    hide Starts, Tiled, Tidy, FreeSize, AliveSize;
    forall c | 0 <= c < |cl| ensures x !in Starts(m', cl[c].lo, cl[c].hi) && x !in Starts(m1, cl[c].lo, cl[c].hi) {
      MarkedWalk(m0, m1, cl, c);
      assert Recovered(m1, m', cl[c].lo, cl[c].hi);
    }
    if Outside(cl, x) {
      assert cl[..|cl|] == cl;
    } else {
      var c :| 0 <= c < |cl| && cl[c].lo <= x < cl[c].hi;
      assert Recovered(m1, m', cl[c].lo, cl[c].hi);
    }
  }

  lemma ScalarStays(m0: Memory, m1: Memory, m': Memory, cl: seq<Range>, rs: set<int>, x: int)
    requires Laid(m0, cl) && Exact(m0, m1, cl, rs) && Swept(m1, m', cl, |cl|)
    requires Blocks(m', cl) == Survivors(m0, cl, rs)
    requires ScalarAt(m0, cl, x) && Justified(m0, cl, rs, x)
    ensures ScalarAt(m', cl, x) && Target(m'[x]) == Target(m0[x])
  {
    hide Blocks, Starts, Tiled, Reachable, Laid, NotStart, OnlyMarks, FreeIntact, Swept;
    CellStays(m0, m1, m', cl, x);
  }

  /** What a survivor refers to survives. */
  lemma SurvivorFields(m0: Memory, m1: Memory, m': Memory, cl: seq<Range>, rs: set<int>, b: int)
    requires GraphOk(m0, cl) && NoMarks(m0, cl) && Exact(m0, m1, cl, rs) && Swept(m1, m', cl, |cl|)
    requires Blocks(m', cl) == Survivors(m0, cl, rs) && b in Survivors(m0, cl, rs) && InPlace(m0, m', b)
    ensures 0 < b < |m'| && FieldsInside(m', b) && ScalarList(m', cl, FieldList(m'[b], b).0, FieldList(m'[b], b).1)
    ensures Target(m'[b]) == NULL || Target(m'[b]) in Blocks(m', cl)
    ensures m'[b].flags.event ==> Leaf(m'[b])
  {
    hide Blocks, Reachable, Laid, OnlyMarks, FreeIntact, Swept, ScalarAt, Justified;
    HeaderJustified(m0, cl, rs, b);
    JustifiedTarget(m0, cl, rs, b);
    var (first, n) := FieldList(m0[b], b);
    forall x | first <= x < first + n ensures ScalarAt(m', cl, x) {
      ScalarStays(m0, m1, m', cl, rs, x);
    }
  }

  lemma JustifiedTarget(m0: Memory, cl: seq<Range>, rs: set<int>, x: int)
    requires Justified(m0, cl, rs, x)
    ensures 0 <= x < |m0| && (Target(m0[x]) == NULL || Reachable(m0, cl, rs, Target(m0[x])))
  {
  }

  // ---- Accounting ----

  /** Number of cells in the blocks of `keep`. */
  ghost function KeptSize(m: Memory, keep: set<int>, p: int, q: int): (n: nat)
    decreases q - p
  {
    if Fits(m, p, q) then (if p in keep then m[p].size else 0) + KeptSize(m, keep, p + m[p].size, q) else 0
  }

  ghost function TotalKept(m: Memory, keep: set<int>, cl: seq<Range>): (n: nat)
  {
    if cl == [] then 0
    else TotalKept(m, keep, cl[..|cl| - 1]) + KeptSize(m, keep, cl[|cl| - 1].lo, cl[|cl| - 1].hi)
  }

  function Payload(cl: seq<Range>): (n: int)
  {
    if cl == [] then 0 else Payload(cl[..|cl| - 1]) + (cl[|cl| - 1].hi - cl[|cl| - 1].lo)
  }

  lemma {:induction false} AliveSizeIsKept(m0: Memory, m1: Memory, keep: set<int>, p: int, q: int)
    requires Tiled(m0, p, q) && OnlyMarks(m0, m1) && forall a :: a in Starts(m0, p, q) ==>
      (a in keep <==> m1[a].flags.alive)
    ensures AliveSize(m1, p, q) == KeptSize(m0, keep, p, q)
    decreases q - p
  {
    if p < q { AliveSizeIsKept(m0, m1, keep, p + m0[p].size, q); }
  }

  /** Free cells and cells of survivors are all there is, in each cluster ... */
  lemma ClusterBalance(m0: Memory, m1: Memory, m': Memory, cl: seq<Range>, rs: set<int>, c: nat)
    requires Laid(m0, cl) && Exact(m0, m1, cl, rs) && NoFreeMarks(m0, cl) && Swept(m1, m', cl, |cl|) && c < |cl|
    ensures FreeSize(m', cl[c].lo, cl[c].hi) + KeptSize(m0, Survivors(m0, cl, rs), cl[c].lo, cl[c].hi)
          == cl[c].hi - cl[c].lo
  {
    hide Starts, Tiled, Tidy, FreeSize, AliveSize, KeptSize, Reachable;
    var keep, lo, hi := Survivors(m0, cl, rs), cl[c].lo, cl[c].hi;
    assert Recovered(m1, m', lo, hi);
    MarkedWalk(m0, m1, cl, c);
    forall a | a in Starts(m0, lo, hi) ensures a in keep <==> m1[a].flags.alive {
      if !IsFree(m0[a]) { assert a in Live(m0, lo, hi); } else { NotABlock(m0, cl, c, a); }
    }
    AliveSizeIsKept(m0, m1, keep, lo, hi);
  }

  /** A free block of one cluster is no block of any. */
  lemma NotABlock(m: Memory, cl: seq<Range>, c: nat, a: int)
    requires Spaced(cl) && c < |cl| && a in Starts(m, cl[c].lo, cl[c].hi) && IsFree(m[a])
    ensures a !in Blocks(m, cl)
  {
    hide Starts;
  }

  /** ... and in the heap. */
  lemma {:induction false} HeapBalance(m0: Memory, m': Memory, keep: set<int>, cl: seq<Range>)
    requires forall c :: 0 <= c < |cl| ==>
      FreeSize(m', cl[c].lo, cl[c].hi) + KeptSize(m0, keep, cl[c].lo, cl[c].hi) == cl[c].hi - cl[c].lo
    ensures TotalFree(m', cl) + TotalKept(m0, keep, cl) == Payload(cl)
  {
    if cl != [] { HeapBalance(m0, m', keep, cl[..|cl| - 1]); }
  }

  // ---- The whole collection ----

  /** What a collection from root blocks rs does to the heap. */
  ghost predicate Collected(m0: Memory, m': Memory, cl: seq<Range>, rs: set<int>)
  {
    && Blocks(m', cl) == Survivors(m0, cl, rs)
    && (forall b :: b in Survivors(m0, cl, rs) ==> InPlace(m0, m', b))
    && GraphOk(m', cl) && NoMarks(m', cl)
    && TotalFree(m', cl) + TotalKept(m0, Survivors(m0, cl, rs), cl) == Payload(cl)
  }

  lemma CollectionExact(m0: Memory, m1: Memory, m': Memory, cl: seq<Range>, rs: set<int>)
    requires GraphOk(m0, cl) && NoMarks(m0, cl) && NoFreeMarks(m0, cl)
    requires Exact(m0, m1, cl, rs) && Swept(m1, m', cl, |cl|) && Laid(m', cl)
    ensures Collected(m0, m', cl, rs)
  {
    hide Starts, Blocks, Reachable, Swept, OnlyMarks, FreeIntact, Laid, InPlace, ScalarList, NoMarks, NoFreeMarks,
         KeptSize, FreeSize, Leaf, Target, FieldsInside;
    GraphLaid(m0, cl);
    SweptBlocks(m0, m1, m', cl);
    SurvivorsAlive(m0, m1, cl, rs);
    var keep := Survivors(m0, cl, rs);
    forall b | b in keep
      ensures InPlace(m0, m', b) && 0 < b < |m'| && FieldsInside(m', b)
      ensures ScalarList(m', cl, FieldList(m'[b], b).0, FieldList(m'[b], b).1)
      ensures Target(m'[b]) == NULL || Target(m'[b]) in Blocks(m', cl)
      ensures m'[b].flags.event ==> Leaf(m'[b])
    {
      SurvivorInPlace(m0, m1, m', cl, b);
      SurvivorFields(m0, m1, m', cl, rs, b);
    }
    NoMarksAgain(m0, m', cl, keep);
    forall c | 0 <= c < |cl|
      ensures FreeSize(m', cl[c].lo, cl[c].hi) + KeptSize(m0, keep, cl[c].lo, cl[c].hi) == cl[c].hi - cl[c].lo
    {
      ClusterBalance(m0, m1, m', cl, rs, c);
    }
    HeapBalance(m0, m', keep, cl);
  }

  lemma NoMarksAgain(m0: Memory, m': Memory, cl: seq<Range>, keep: set<int>)
    requires NoMarks(m0, cl) && Blocks(m', cl) == keep <= Blocks(m0, cl) && forall b :: b in keep ==> InPlace(m0, m', b)
    ensures NoMarks(m', cl)
  {
    hide Blocks;
  }

  /** The same roots and finalizers are good for the next collection. */
  lemma RootsStay(m0: Memory, m1: Memory, m': Memory, cl: seq<Range>, rs: set<int>, roots: seq<Root>)
    requires Laid(m0, cl) && Exact(m0, m1, cl, rs) && Swept(m1, m', cl, |cl|) && Blocks(m', cl) == Survivors(m0, cl, rs)
    requires RootsOk(m0, cl, roots) && AllRoots(m0, roots) <= rs
    ensures RootsOk(m', cl, roots)
  {
    hide Blocks, Reachable, Laid, Exact, Swept, ScalarAt, AllRoots, Justified;
    forall i | 0 <= i < |roots| ensures RootOk(m', cl, roots[i]) {
      AllRootsMember(m0, roots, i);
      RootJustified(m0, cl, rs, roots[i]);
      match roots[i] {
        case Forced(b) =>
        case Cells(first, count) =>
          if first != NULL {
            forall x | first <= x < first + count ensures ScalarAt(m', cl, x) {
              ScalarStays(m0, m1, m', cl, rs, x);
            }
          }
      }
    }
  }

  lemma FinalizersStay(m0: Memory, m': Memory, cl: seq<Range>, rs: set<int>, fs: seq<Finalizer>)
    requires Blocks(m', cl) == Survivors(m0, cl, rs) && FinalizersOk(m0, cl, fs) && Objects(fs) <= rs
    ensures FinalizersOk(m', cl, fs)
  {
    hide Blocks, Reachable;
    forall i | 0 <= i < |fs| ensures fs[i].obj in Blocks(m', cl) { ReachableRoot(m0, cl, rs, fs[i].obj); }
  }

  lemma {:induction false} ChosenOk(m: Memory, cl: seq<Range>, fs: seq<Finalizer>, dead: seq<bool>, want: bool)
    requires |fs| == |dead| && FinalizersOk(m, cl, fs)
    ensures FinalizersOk(m, cl, Chosen(fs, dead, want))
  {
    hide Blocks;
    if fs != [] { ChosenOk(m, cl, fs[..|fs| - 1], dead[..|fs| - 1], want); }
  }

  /** Everything a collection asks of the heap it starts from, and leaves behind. */
  ghost predicate Collectable(m: Memory, cl: seq<Range>, roots: seq<Root>, alive: seq<Finalizer>,
                              pending: seq<Finalizer>)
  {
    && GraphOk(m, cl) && NoMarks(m, cl) && RootsOk(m, cl, roots)
    && FinalizersOk(m, cl, alive) && FinalizersOk(m, cl, pending)
  }

  lemma CollectableAgain(m0: Memory, m1: Memory, m': Memory, cl: seq<Range>, roots: seq<Root>, fs: seq<Finalizer>,
                         ps: seq<Finalizer>,
                         fs': seq<Finalizer>, ps': seq<Finalizer>, dead: seq<bool>, overflow: bool)
    requires Collectable(m0, cl, roots, fs, ps) && NoFreeMarks(m0, cl) && Laid(m', cl)
    requires Marked(m0, m1, cl, roots, fs, ps, fs', ps', dead, overflow) && Swept(m1, m', cl, |cl|)
    ensures Collected(m0, m', cl, Objects(ps) + AllRoots(m0, roots) + Objects(fs))
    ensures Collectable(m', cl, roots, fs', ps')
  {
    hide Blocks, Reachable, Laid, Exact, Swept, AllRoots, NoMarks, NoFreeMarks, GraphOk, RootsOk, FinalizersOk,
         Verdicts, Objects, Chosen;
    var rs := Objects(ps) + AllRoots(m0, roots) + Objects(fs);
    GraphLaid(m0, cl);
    CollectionExact(m0, m1, m', cl, rs);
    RootsStay(m0, m1, m', cl, rs, roots);
    FinalizersStay(m0, m', cl, rs, fs);
    FinalizersStay(m0, m', cl, rs, ps);
    ChosenOk(m', cl, fs, dead, false);
    ChosenOk(m', cl, fs, dead, true);
    FinalizersJoin(m', cl, ps, Chosen(fs, dead, true));
  }

  lemma FinalizersJoin(m: Memory, cl: seq<Range>, fs: seq<Finalizer>, gs: seq<Finalizer>)
    requires FinalizersOk(m, cl, fs) && FinalizersOk(m, cl, gs)
    ensures FinalizersOk(m, cl, fs + gs)
  {
  }

  lemma {:induction false} ListSizeIsFree(m: Memory, p: int, q: int)
    requires Tiled(m, p, q)
    ensures ListSize(m, FreeList(m, p, q)) == FreeSize(m, p, q)
    decreases q - p
  {
    if p < q {
      ListSizeIsFree(m, p + m[p].size, q);
      assert FreeList(m, p, q)[if IsFree(m[p]) then 1 else 0..] == FreeList(m, p + m[p].size, q);
    }
  }

  /** Heap_ComputeAliveVsDeadRatio: bytes in all, and bytes free, summed over the free lists. */
  method ComputeAliveVsDeadRatio(h: Heap) returns (totalBytes: int, freeBytes: int)
    requires h.Valid()
    ensures totalBytes == Payload(h.clusters) * BLOCK_BYTES
    ensures freeBytes == TotalFree(h.mem[..], h.clusters) * BLOCK_BYTES
  {
    hide Tiled, Tidy, FreeList, FreeSize, ListSize;
    var freeBlocks := 0;
    totalBytes := 0;
    assert h.clusters[..0] == [];
    for c := 0 to |h.clusters|
      invariant totalBytes == Payload(h.clusters[..c]) * BLOCK_BYTES
      invariant freeBlocks == TotalFree(h.mem[..], h.clusters[..c])
    {
      totalBytes := totalBytes + (h.clusters[c].hi - h.clusters[c].lo) * BLOCK_BYTES;
      var size := FreeListSize(h, c);
      freeBlocks := freeBlocks + size;
      assert h.clusters[..c + 1][..c] == h.clusters[..c];
    }
    assert h.clusters[..|h.clusters|] == h.clusters;
    freeBytes := freeBlocks * BLOCK_BYTES;
  }

  method FreeListSize(h: Heap, c: nat) returns (size: nat)
    requires h.Valid() && c < |h.clusters|
    ensures size == FreeSize(h.mem[..], h.clusters[c].lo, h.clusters[c].hi)
  {
    hide Tiled, Tidy, FreeList, FreeSize, ListSize;
    ghost var m, r := h.mem[..], h.clusters[c];
    var fl := h.freeLists[c];
    assert ClusterOk(m, r, fl);
    ListSizeIsFree(m, r.lo, r.hi);
    NoneListed(m);
    size := 0;
    var i := |fl|;
    assert fl[|fl|..] == [] && fl[0..] == fl;
    while i > 0
      invariant 0 <= i <= |fl| && size == ListSize(m, fl[i..])
    {
      i := i - 1;
      FreeListAt(m, r.lo, r.hi, i);
      ListSizeRest(m, fl, i);
      size := size + h.mem[fl[i]].size;
    }
  }

  /** The part of a collection between the clean-up of the event cache and the check of memory pressure:
      mark, sweep and count. */
  method MarkAndSweep(gc: Collector, roots: seq<Root>)
    returns (freeBytes: int, ghost dead: seq<bool>, ghost overflow: bool)
    requires gc.marker.heap.Valid() && gc.marker.markStack.Length >= 2
    requires Collectable(gc.marker.heap.mem[..], gc.marker.heap.clusters,
             roots, gc.finalizersAlive, gc.finalizersPending)
    modifies gc, gc.marker.heap`freeLists, gc.marker.heap.mem,
             gc.marker.markStack, gc.marker`top, gc.marker`outOfStackSpace
    ensures gc.marker.heap.Valid()
    ensures Collectable(gc.marker.heap.mem[..], gc.marker.heap.clusters,
            roots, gc.finalizersAlive, gc.finalizersPending)
    ensures var m0 := old(gc.marker.heap.mem[..]);
      var seeds := Objects(old(gc.finalizersPending)) + AllRoots(m0, roots);
      && Collected(m0, gc.marker.heap.mem[..], gc.marker.heap.clusters, seeds + Objects(old(gc.finalizersAlive)))
      && |dead| == |old(gc.finalizersAlive)|
      && Verdicts(m0, gc.marker.heap.clusters, seeds, old(gc.finalizersAlive), dead, overflow)
    ensures gc.finalizersAlive == Chosen(old(gc.finalizersAlive), dead, false)
    ensures gc.finalizersPending == old(gc.finalizersPending) + Chosen(old(gc.finalizersAlive), dead, true)
    ensures freeBytes == TotalFree(gc.marker.heap.mem[..], gc.marker.heap.clusters) * BLOCK_BYTES
    ensures Ample(old(gc.marker.heap.mem[..]), gc.marker.heap.clusters, gc.marker.markStack.Length) ==> !overflow
  {
    hide Ample, Independent, AllPended, Exact, Swept, AllRoots, NoMarks, NoFreeMarks, GraphOk, RootsOk, FinalizersOk,
         Verdicts, Objects, Chosen, Collected,
         ClusterOk, Laid, Sweepable;
    var h := gc.marker.heap;
    ghost var m0, cl, fs, ps := h.mem[..], h.clusters, gc.finalizersAlive, gc.finalizersPending;
    ValidUnmarked(m0, cl, h.freeLists);
    dead, overflow := gc.Mark(roots);
    ghost var m1 := h.mem[..];
    AfterMark(m0, m1, cl, Objects(ps) + AllRoots(m0, roots) + Objects(fs));
    SweepHeap(h);
    ValidLaid(h.mem[..], cl, h.freeLists);
    CollectableAgain(m0, m1, h.mem[..], cl, roots, fs, ps, gc.finalizersAlive, gc.finalizersPending, dead, overflow);
    var totalBytes;
    totalBytes, freeBytes := ComputeAliveVsDeadRatio(h);
  }

  lemma AfterMark(m0: Memory, m1: Memory, cl: seq<Range>, rs: set<int>)
    requires GraphOk(m0, cl) && Exact(m0, m1, cl, rs) && NoFreeMarks(m0, cl)
    ensures Sweepable(m1, cl)
  {
    hide Blocks, Reachable, NoFreeMarks, OnlyMarks, FreeIntact, Sweepable;
    GraphLaid(m0, cl);
    MarkedSweepable(m0, m1, cl);
  }

  lemma ValidLaid(m: Memory, cl: seq<Range>, fls: seq<seq<int>>)
    requires Spaced(cl) && ClustersOk(m, cl, fls)
    ensures Laid(m, cl)
  {
  }
}
